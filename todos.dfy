/** The values of the todo list: an item record, the sequence transforms each
    mutation of `TodoApp` applies to its list, the read-only queries and the
    view projection that `render` and `updateActionButtons` compute. */
module Todos {
  import opened Sequences
  import opened Text

  /** An item identifier: the millisecond clock reading taken when the item
      was added. */
  type Id = int

  datatype Option<T> = None | Some(value: T)

  /** One item: its id, its text, whether it is done, and when it was created
      (a timestamp, milliseconds since the epoch). */
  datatype Todo = Todo(id: Id, text: string, completed: bool, createdAt: int)

  predicate IsCompleted(t: Todo) { t.completed }

  predicate IsActive(t: Todo) { !t.completed }

  /** No two items share an id. The app relies on this but does not enforce
      it: two adds in the same millisecond get the same id. */
  predicate UniqueIds(s: seq<Todo>) {
    forall i, j :: 0 <= i < j < |s| ==> s[i].id != s[j].id
  }

  /** Every stored text is non-empty and already trimmed. */
  predicate TextsValid(s: seq<Todo>) {
    forall i :: 0 <= i < |s| ==> s[i].text != [] && IsTrimmed(s[i].text)
  }

  predicate HasId(s: seq<Todo>, id: Id) {
    exists i :: 0 <= i < |s| && s[i].id == id
  }

  // ---------------------------------------------------------------------
  // The transforms behind the mutations
  // ---------------------------------------------------------------------

  /** The deferred body of `deleteTodo`: keep the items whose id differs. */
  function Without(s: seq<Todo>, id: Id): seq<Todo> {
    Filter(s, (t: Todo) => t.id != id)
  }

  /** `toggleComplete`: negate `completed` on every item with this id. */
  function Toggled(s: seq<Todo>, id: Id): seq<Todo> {
    seq(|s|, i requires 0 <= i < |s| =>
      if s[i].id == id then s[i].(completed := !s[i].completed) else s[i])
  }

  /** Whether an item is the one being edited (`editingId === todo.id`); an
      absent `editingId` (JavaScript `null`) matches no item. */
  predicate IsEditing(editingId: Option<Id>, t: Todo) {
    editingId == Some(t.id)
  }

  /** The rewrite in `saveEdit`: every item matching `editingId` gets `text`. */
  function Renamed(s: seq<Todo>, editingId: Option<Id>, text: string): seq<Todo> {
    seq(|s|, i requires 0 <= i < |s| =>
      if IsEditing(editingId, s[i]) then s[i].(text := text) else s[i])
  }

  /** The items that are not done: what `clearCompleted` keeps. */
  function ActiveTodos(s: seq<Todo>): seq<Todo> {
    Filter(s, IsActive)
  }

  function CompletedTodos(s: seq<Todo>): seq<Todo> {
    Filter(s, IsCompleted)
  }

  // ---------------------------------------------------------------------
  // Queries
  // ---------------------------------------------------------------------

  /** The test `getFilteredTodos` applies to one item under a filter name:
      only "active" and "completed" select; any other name keeps everything. */
  predicate Selects(filter: string, t: Todo) {
    if filter == "active" then !t.completed
    else if filter == "completed" then t.completed
    else true
  }

  /** `getFilteredTodos`: an order-preserving selection from the list that is
      exactly the active items, exactly the completed items, or the whole
      list, depending on the filter name. */
  function FilteredTodos(s: seq<Todo>, filter: string): (r: seq<Todo>)
    ensures IsSubsequence(r, s)
    ensures filter == "active" ==> r == ActiveTodos(s)
    ensures filter == "completed" ==> r == CompletedTodos(s)
    ensures filter != "active" && filter != "completed" ==> r == s
  {
    var r := Filter(s, (t: Todo) => Selects(filter, t));
    if filter == "active" then
      FilterSame(s, (t: Todo) => Selects(filter, t), IsActive);
      r
    else if filter == "completed" then
      FilterSame(s, (t: Todo) => Selects(filter, t), IsCompleted);
      r
    else
      FilterIdentity(s, (t: Todo) => Selects(filter, t));
      r
  }

  /** Two predicates that agree everywhere select the same items. */
  lemma {:induction false} FilterSame(s: seq<Todo>, p: Todo -> bool, q: Todo -> bool)
    requires forall t :: p(t) == q(t)
    ensures Filter(s, p) == Filter(s, q)
  {
    if s != [] { FilterSame(s[1..], p, q); }
  }

  /** `getCompletedCount`: the number of completed items; it is positive
      exactly when some item is completed. */
  function CompletedCount(s: seq<Todo>): (n: nat)
    ensures n <= |s|
    ensures n > 0 <==> exists i :: 0 <= i < |s| && s[i].completed
  {
    FilterLength(s, IsCompleted);
    FilterEmpty(s, IsCompleted);
    |CompletedTodos(s)|
  }

  /** `getActiveCount`, computed as total minus completed: it is the number
      of items that are not done, so the two counts partition the list. */
  function ActiveCount(s: seq<Todo>): (n: nat)
    ensures n == |ActiveTodos(s)|
    ensures n + CompletedCount(s) == |s|
  {
    FilterComplement(s, IsCompleted, IsActive);
    |s| - CompletedCount(s)
  }

  // ---------------------------------------------------------------------
  // View projection
  // ---------------------------------------------------------------------

  /** One rendered list row: the item and whether it shows the edit field. */
  datatype Row = Row(todo: Todo, editing: bool)

  /** What one `render` shows: the three counts, which controls are visible,
      the list rows, and the empty-state message when the list is hidden. */
  datatype View = View(
    totalCount: nat,
    activeCount: nat,
    completedCount: nat,
    clearCompletedVisible: bool,
    downloadVisible: bool,
    footerStatsVisible: bool,
    rows: seq<Row>,
    emptyMessage: Option<string>)

  /** The empty-state message for a filter name. */
  function EmptyMessage(filter: string): string {
    if filter == "all" then "No todos yet. Add one above!" else "No " + filter + " todos"
  }

  /** `render` with `updateCounts` and `updateActionButtons`, as a value. */
  function Render(s: seq<Todo>, filter: string, editingId: Option<Id>): (v: View)
    ensures v.totalCount == |s| && v.activeCount + v.completedCount == |s|
    ensures v.activeCount == |FilteredTodos(s, "active")|
    ensures v.completedCount == |FilteredTodos(s, "completed")|
    ensures v.clearCompletedVisible <==> exists i :: 0 <= i < |s| && s[i].completed
    ensures v.downloadVisible <==> s != []
    ensures v.footerStatsVisible <==> s != []
    ensures v.emptyMessage.Some? <==> v.rows == []
    ensures v.rows == [] <==> forall i :: 0 <= i < |s| ==> !Selects(filter, s[i])
    ensures v.emptyMessage.Some? && filter == "all" ==>
              v.emptyMessage.value == "No todos yet. Add one above!"
    ensures v.emptyMessage.Some? && filter != "all" ==>
              v.emptyMessage.value == "No " + filter + " todos"
    ensures |v.rows| == |FilteredTodos(s, filter)|
    ensures forall i :: 0 <= i < |v.rows| ==>
              v.rows[i].todo == FilteredTodos(s, filter)[i] &&
              (v.rows[i].editing <==> IsEditing(editingId, v.rows[i].todo))
  {
    var shown := FilteredTodos(s, filter);
    FilterEmpty(s, (t: Todo) => Selects(filter, t));
    var completed := CompletedCount(s);
    View(
      |s|,
      ActiveCount(s),
      completed,
      completed > 0,
      |s| > 0,
      |s| > 0,
      seq(|shown|, i requires 0 <= i < |shown| => Row(shown[i], IsEditing(editingId, shown[i]))),
      if |shown| == 0 then Some(EmptyMessage(filter)) else None)
  }

  // ---------------------------------------------------------------------
  // Properties of the transforms
  // ---------------------------------------------------------------------

  /** Deleting keeps exactly the items with another id, in order. */
  lemma WithoutSpec(s: seq<Todo>, id: Id)
    ensures IsSubsequence(Without(s, id), s)
    ensures forall t :: t in Without(s, id) <==> t in s && t.id != id
    ensures !HasId(Without(s, id), id)
    ensures forall t :: multiset(Without(s, id))[t] == if t.id != id then multiset(s)[t] else 0
  {
    FilterMultiset(s, (t: Todo) => t.id != id);
    forall t ensures t in Without(s, id) <==> t in s && t.id != id {
      if t in Without(s, id) { FilterMember(s, (t: Todo) => t.id != id, t); }
      if t in s && t.id != id { FilterKeeps(s, (t: Todo) => t.id != id, t); }
    }
  }

  /** Deleting an id that is not in the list changes nothing. */
  lemma WithoutAbsent(s: seq<Todo>, id: Id)
    requires !HasId(s, id)
    ensures Without(s, id) == s
  {
    FilterIdentity(s, (t: Todo) => t.id != id);
  }

  /** Deleting a present id of a list with unique ids removes exactly one item. */
  lemma WithoutPresent(s: seq<Todo>, id: Id)
    requires UniqueIds(s) && HasId(s, id)
    ensures |Without(s, id)| == |s| - 1
  {
    var k :| 0 <= k < |s| && s[k].id == id;
    WithoutLength(s, id, k);
  }

  lemma {:induction false} WithoutLength(s: seq<Todo>, id: Id, k: nat)
    requires UniqueIds(s) && k < |s| && s[k].id == id
    ensures |Without(s, id)| == |s| - 1
  {
    if k == 0 {
      assert !HasId(s[1..], id) by {
        forall i | 0 <= i < |s[1..]| ensures s[1..][i].id != id {
          assert s[1..][i] == s[i + 1];
        }
      }
      WithoutAbsent(s[1..], id);
    } else {
      assert s[0].id != id;
      assert UniqueIds(s[1..]) by {
        forall i, j | 0 <= i < j < |s[1..]| ensures s[1..][i].id != s[1..][j].id {
          assert s[1..][i] == s[i + 1] && s[1..][j] == s[j + 1];
        }
      }
      WithoutLength(s[1..], id, k - 1);
    }
  }

  /** Toggling keeps length, order and ids; it negates `completed` on the
      matching items and leaves every other field and item as it was. */
  lemma ToggledSpec(s: seq<Todo>, id: Id)
    ensures |Toggled(s, id)| == |s|
    ensures forall i :: 0 <= i < |s| ==>
              Toggled(s, id)[i].id == s[i].id &&
              Toggled(s, id)[i].text == s[i].text &&
              Toggled(s, id)[i].createdAt == s[i].createdAt &&
              Toggled(s, id)[i].completed == (s[i].completed != (s[i].id == id))
  {
  }

  /** Toggling the same id twice restores the list. */
  lemma ToggleTwice(s: seq<Todo>, id: Id)
    ensures Toggled(Toggled(s, id), id) == s
  {
  }

  /** Toggling an id that is not in the list changes nothing. */
  lemma ToggleAbsent(s: seq<Todo>, id: Id)
    requires !HasId(s, id)
    ensures Toggled(s, id) == s
  {
  }

  /** With unique ids, toggling a present item moves it between the active
      and the completed counts. */
  lemma ToggleCount(s: seq<Todo>, id: Id, k: nat)
    requires UniqueIds(s) && k < |s| && s[k].id == id
    ensures CompletedCount(Toggled(s, id)) ==
            if s[k].completed then CompletedCount(s) - 1 else CompletedCount(s) + 1
    ensures ActiveCount(Toggled(s, id)) ==
            if s[k].completed then ActiveCount(s) + 1 else ActiveCount(s) - 1
  {
    assert Toggled(s, id) == s[k := s[k].(completed := !s[k].completed)];
    FilterUpdateLength(s, IsCompleted, k, s[k].(completed := !s[k].completed));
  }

  /** Saving an edit keeps length, order, ids, flags and timestamps; items
      matching `editingId` take the new text, all others stay as they were. */
  lemma RenamedSpec(s: seq<Todo>, editingId: Option<Id>, text: string)
    ensures |Renamed(s, editingId, text)| == |s|
    ensures forall i :: 0 <= i < |s| ==>
              Renamed(s, editingId, text)[i] ==
                (if editingId == Some(s[i].id) then s[i].(text := text) else s[i])
    ensures CompletedCount(Renamed(s, editingId, text)) == CompletedCount(s)
  {
    RenamedKeepsCompleted(s, editingId, text);
  }

  lemma {:induction false} RenamedKeepsCompleted(s: seq<Todo>, editingId: Option<Id>, text: string)
    ensures |CompletedTodos(Renamed(s, editingId, text))| == |CompletedTodos(s)|
  {
    if s != [] {
      assert Renamed(s, editingId, text)[1..] == Renamed(s[1..], editingId, text);
      RenamedKeepsCompleted(s[1..], editingId, text);
    }
  }

  /** With nothing being edited, saving changes no item. */
  lemma RenamedNone(s: seq<Todo>, text: string)
    ensures Renamed(s, None, text) == s
  {
  }

  /** Clearing leaves no completed item, keeps exactly the active items in
      their order, and keeps the active count. */
  lemma ActiveTodosSpec(s: seq<Todo>)
    ensures IsSubsequence(ActiveTodos(s), s)
    ensures CompletedCount(ActiveTodos(s)) == 0
    ensures forall t :: t in ActiveTodos(s) <==> t in s && !t.completed
    ensures ActiveCount(ActiveTodos(s)) == ActiveCount(s)
    ensures forall t :: multiset(ActiveTodos(s))[t] == if !t.completed then multiset(s)[t] else 0
  {
    FilterMultiset(s, IsActive);
    forall t ensures t in ActiveTodos(s) <==> t in s && !t.completed {
      if t in ActiveTodos(s) { FilterMember(s, IsActive, t); }
      if t in s && !t.completed { FilterKeeps(s, IsActive, t); }
    }
    FilterIdempotent(s, IsActive);
  }

  /** Clearing completed items twice is clearing them once. */
  lemma ClearCompletedIdempotent(s: seq<Todo>)
    ensures ActiveTodos(ActiveTodos(s)) == ActiveTodos(s)
  {
    FilterIdempotent(s, IsActive);
  }

  /** The filtered views have the sizes of the counts. */
  lemma FilteredCounts(s: seq<Todo>)
    ensures |FilteredTodos(s, "active")| == ActiveCount(s)
    ensures |FilteredTodos(s, "completed")| == CompletedCount(s)
    ensures FilteredTodos(s, "all") == s
  {
  }

  /** Every item a filtered view shows passes the filter. */
  lemma FilteredSelects(s: seq<Todo>, filter: string)
    ensures forall i :: 0 <= i < |FilteredTodos(s, filter)| ==>
              Selects(filter, FilteredTodos(s, filter)[i])
  {
  }

  // ---------------------------------------------------------------------
  // Invariants the transforms preserve
  // ---------------------------------------------------------------------

  /** A selection from a list with unique ids has unique ids. */
  lemma {:induction false} FilterUniqueIds(s: seq<Todo>, p: Todo -> bool)
    requires UniqueIds(s)
    ensures UniqueIds(Filter(s, p))
  {
    if s != [] {
      assert UniqueIds(s[1..]) by {
        forall i, j | 0 <= i < j < |s[1..]| ensures s[1..][i].id != s[1..][j].id {
          assert s[1..][i] == s[i + 1] && s[1..][j] == s[j + 1];
        }
      }
      FilterUniqueIds(s[1..], p);
      var rest := Filter(s[1..], p);
      if p(s[0]) {
        forall j | 0 <= j < |rest| ensures rest[j].id != s[0].id {
          FilterMember(s[1..], p, rest[j]);
          var m :| 0 <= m < |s[1..]| && s[1..][m] == rest[j];
          assert s[m + 1] == rest[j];
        }
        assert ([s[0]] + rest)[0] == s[0];
        assert forall j :: 0 < j < |rest| + 1 ==> ([s[0]] + rest)[j] == rest[j - 1];
      }
    }
  }

  /** A selection from a list with valid texts has valid texts. */
  lemma {:induction false} FilterTextsValid(s: seq<Todo>, p: Todo -> bool)
    requires TextsValid(s)
    ensures TextsValid(Filter(s, p))
  {
    if s != [] {
      assert TextsValid(s[1..]) by {
        forall i | 0 <= i < |s[1..]| ensures s[1..][i].text != [] && IsTrimmed(s[1..][i].text) {
          assert s[1..][i] == s[i + 1];
        }
      }
      FilterTextsValid(s[1..], p);
      var rest := Filter(s[1..], p);
      assert forall j :: 0 < j < |rest| + 1 ==> ([s[0]] + rest)[j] == rest[j - 1];
    }
  }

  /** Appending an item with a fresh id keeps the ids unique. */
  lemma AppendUniqueIds(s: seq<Todo>, t: Todo)
    requires UniqueIds(s) && !HasId(s, t.id)
    ensures UniqueIds(s + [t])
  {
  }

  /** Toggling and renaming leave every id in place. */
  lemma MapsKeepUniqueIds(s: seq<Todo>, id: Id, editingId: Option<Id>, text: string)
    requires UniqueIds(s)
    ensures UniqueIds(Toggled(s, id))
    ensures UniqueIds(Renamed(s, editingId, text))
  {
  }

  /** With unique ids, at most one rendered row shows the edit field, and
      none does when nothing is being edited. */
  lemma AtMostOneEditingRow(s: seq<Todo>, filter: string, editingId: Option<Id>)
    requires UniqueIds(s)
    ensures forall i, j :: 0 <= i < j < |Render(s, filter, editingId).rows| ==>
              !(Render(s, filter, editingId).rows[i].editing &&
                Render(s, filter, editingId).rows[j].editing)
    ensures editingId == None ==>
              forall i :: 0 <= i < |Render(s, filter, editingId).rows| ==>
                !Render(s, filter, editingId).rows[i].editing
  {
    FilterUniqueIds(s, (t: Todo) => Selects(filter, t));
  }
}
