# Todo list controller, modelled in Dafny

This project models the `TodoApp` controller of a browser todo-list page
(`script.js`). The controller holds three pieces of state:

- `todos`: the ordered list of items `{id, text, completed, createdAt}`;
- `currentFilter`: the name of the active filter;
- `editingId`: the id of the item being edited, or none.

The page calls the controller to add, delete, toggle, edit or clear items and
to change the filter. After every change the controller re-renders, and it can
export the list.

The model is split into modules:

- `Sequences` (`sequences.dfy`): `Filter`, the order-preserving selection that
  JavaScript's `Array.prototype.filter` performs. `IsSubsequence` is an
  independent definition of "keeps order". The file also holds the lemmas the
  rest of the model uses about `Filter`: multiplicities, identity,
  emptiness, idempotence, the complementary split and single-element update.
- `Text` (`text.dfy`): `String.prototype.trim`. `IsWhitespace` is the
  ECMAScript WhiteSpace and LineTerminator set. Trim is done by index: skip
  the leading whitespace, skip the trailing whitespace, take the slice.
- `Todos` (`todos.dfy`): the item record and the sequence transforms behind
  each mutation (`Without`, `Toggled`, `Renamed`, `ActiveTodos`). It also
  holds the queries `FilteredTodos`, `CompletedCount` and `ActiveCount`. The
  view projection `Render` says which controls are visible, which rows are
  shown, which row is in edit mode and which empty-state message is shown.
  The lemmas prove what each transform does and which invariants it keeps
  (unique ids, trimmed non-empty texts).
- `App` (`app.dfy`): the `TodoApp` class. Its fields are `todos`,
  `currentFilter` and `editingId`. Its methods have `modifies this`. Each
  method's `ensures` gives the whole new state in terms of the old one and the
  transforms in `Todos`. `DownloadTodos` only reads state and returns the
  export document.
- `Scenarios` (`scenarios.dfy`): short sessions built from a fresh
  controller. Each one is proved from the method contracts alone.

Inputs that the source reads from outside become parameters:

- the value of the input field in `addTodo`;
- the value of the edit field in `saveEdit`;
- the clock reading `Date.now()` used as the new id;
- the creation timestamp `new Date()`;
- the export date;
- the list that `loadTodos` recovers from the browser store.

Ids are unbounded integers and timestamps are integers (milliseconds).

Some behaviour of the code, which the model follows as written:

- A malformed stored snapshot is not recovered silently. `JSON.parse` in
  `loadTodos` is not guarded, so it throws and the app never starts. The
  constructor only models the two outcomes that do start: nothing stored, or
  a list recovered.
- `setFilter` stores any string it is given. The filter query treats every
  name other than `active` and `completed` like `all`. The empty-state
  message is "No todos yet. Add one above!" only for `all`. For any other
  name it is "No <name> todos".
- The delete callback and `toggleComplete` filter or map over the whole list.
  They do not look the id up first, so every item sharing the id is affected.
- `saveEdit` is reached only while an edit field is shown: from that field's
  blur and Enter handlers and from its save button (script.js:220-221, 234,
  257). With no edit field on the page, its lookup of the field
  (script.js:123-124) throws. The model takes the field's text as a
  parameter, so it never fails; with no edit in progress the rewrite matches
  no item and the list stays as it was (`Todos.RenamedNone`).
- Ids are not guaranteed to be unique: two adds in the same millisecond get
  the same id. Uniqueness is therefore never assumed. It is stated as an
  invariant that each operation keeps. `AddTodo` keeps it only when its id is
  fresh.

## Model

| member | source | states |
|---|---|---|
| `Text.Trim` | script.js:67 | the trimmed text has no whitespace at either end, and it is empty exactly when the input is all whitespace |
| `Text.TrimSlice` | script.js:67 | trim only cuts whitespace from the two ends: the result is a slice of the input with only whitespace before and after it |
| `Text.TrimTrimmed` | script.js:124 | text with no whitespace at its ends is its own trim |
| `Text.TrimIdempotent` | script.js:124 | trimming twice is trimming once |
| `Sequences.Filter` | script.js:188-192 | the result is a subsequence of the input in the original order, and every kept element passes the test |
| `Sequences.FilterMultiset` | script.js:188-192 | every passing element is kept as often as it occurs and every failing one is dropped |
| `Sequences.FilterMember` | script.js:90 | every kept element occurs in the input and passes the test |
| `Sequences.FilterKeeps` | script.js:158 | every element of the input that passes the test is kept |
| `Sequences.FilterIdentity` | script.js:191 | the filter returns its input unchanged exactly when every element passes |
| `Sequences.FilterLength` | script.js:158 | a filter never lengthens the list |
| `Sequences.FilterEmpty` | script.js:304 | the filter returns nothing exactly when no element passes |
| `Sequences.FilterIdempotent` | script.js:158 | filtering twice by the same test is filtering once |
| `Sequences.FilterComplement` | script.js:200-202 | the elements that pass and the elements that fail add up to the whole list |
| `Sequences.FilterUpdateLength` | script.js:99-101 | replacing one element changes the kept count by that element alone |
| `Text.IsWhitespace` | script.js:67 | the characters `trim` removes; specified through `Text.Trim`, `Text.TrimSlice` and `Text.TrimTrimmed` |
| `Todos.Without` | script.js:90 | the delete filter; `Todos.WithoutSpec`, `Todos.WithoutAbsent`, `Todos.WithoutPresent` and `Todos.WithoutLength` state what it keeps |
| `Todos.Toggled` | script.js:99-101 | the toggle map; `Todos.ToggledSpec`, `Todos.ToggleTwice`, `Todos.ToggleAbsent` and `Todos.ToggleCount` state what it changes |
| `Todos.IsEditing` | script.js:206 | the edit-mode test `editingId === todo.id`; `Todos.Render` and `Todos.AtMostOneEditingRow` state which rows it marks |
| `Todos.Renamed` | script.js:127-129 | the edit rewrite; `Todos.RenamedSpec`, `Todos.RenamedKeepsCompleted` and `Todos.RenamedNone` state what it changes |
| `Todos.ActiveTodos` | script.js:158 | the items `clearCompleted` keeps; `Todos.ActiveTodosSpec` and `Todos.ClearCompletedIdempotent` state which |
| `Todos.CompletedTodos` | script.js:197 | the done items that `getCompletedCount` counts; `Todos.FilteredTodos`, `Todos.CompletedCount` and `Todos.FilteredCounts` state what it holds |
| `Todos.Selects` | script.js:188-192 | the per-item test of `getFilteredTodos`; `Todos.FilteredTodos` and `Todos.FilteredSelects` state what it selects |
| `Todos.EmptyMessage` | script.js:310-314 | the empty-state text for a filter name; `Todos.Render` states when it is shown and which of its two texts appears |
| `Todos.FilteredTodos` | script.js:187-193 | `getFilteredTodos` keeps order; `active` gives exactly the items not done, `completed` exactly the done items, any other name the whole list |
| `Todos.FilterSame` | script.js:189-190 | two tests that agree on every item select the same items |
| `Todos.FilteredSelects` | script.js:188-192 | every item in a filtered view passes the filter |
| `Todos.FilteredCounts` | script.js:196-202 | the `active` and `completed` views have the active and completed counts as lengths, and `all` is the whole list |
| `Todos.CompletedCount` | script.js:196-198 | `getCompletedCount` is at most the list length, and it is positive exactly when some item is done |
| `Todos.ActiveCount` | script.js:200-202 | `getActiveCount`, computed as total minus completed, is the number of items not done, so the two counts add up to the length |
| `Todos.Render` | script.js:278-321 | counts partition the list; clear is shown iff some item is done; export and footer are shown iff the list is non-empty; the empty message appears iff no item passes the filter, with the `all` text or "No <filter> todos"; rows are the filtered items in order, and a row is in edit mode iff its id is `editingId` |
| `Todos.AtMostOneEditingRow` | script.js:206 | with unique ids at most one rendered row is in edit mode, and none when nothing is being edited |
| `Todos.WithoutSpec` | script.js:90 | delete keeps exactly the items whose id differs, in order and with their multiplicities, and none with the deleted id remains |
| `Todos.WithoutAbsent` | script.js:90 | deleting an id that is not present leaves the list unchanged |
| `Todos.WithoutPresent` | script.js:90 | with unique ids, deleting a present id removes exactly one item |
| `Todos.WithoutLength` | script.js:90 | with unique ids, deleting the id found at a given position shortens the list by one |
| `Todos.ToggledSpec` | script.js:99-101 | toggle keeps length, order, ids, texts and timestamps, and negates `completed` exactly on the items with that id |
| `Todos.ToggleTwice` | script.js:99-101 | toggling the same id twice restores the list |
| `Todos.ToggleAbsent` | script.js:99-101 | toggling an id that is not present changes nothing |
| `Todos.ToggleCount` | script.js:99-101 | with unique ids, toggling a present item moves it from the active count to the completed count, or back |
| `Todos.RenamedSpec` | script.js:127-129 | the edit rewrite keeps length and order, gives the new text to the items whose id is `editingId`, leaves every other field and item alone, and keeps the completed count |
| `Todos.RenamedKeepsCompleted` | script.js:127-129 | the edit rewrite does not change how many items are done |
| `Todos.RenamedNone` | script.js:127-129 | with no edit in progress, the rewrite changes no item |
| `Todos.ActiveTodosSpec` | script.js:158 | clearing keeps exactly the items not done, in order and with their multiplicities, leaves no done item, and keeps the active count |
| `Todos.ClearCompletedIdempotent` | script.js:158 | clearing done items twice is clearing them once |
| `Todos.FilterUniqueIds` | script.js:90 | a selection from a list with unique ids has unique ids |
| `Todos.FilterTextsValid` | script.js:158 | a selection from a list of trimmed, non-empty texts has only such texts |
| `Todos.AppendUniqueIds` | script.js:71-77 | appending an item whose id is fresh keeps the ids unique |
| `Todos.MapsKeepUniqueIds` | script.js:99-101 | toggling and renaming keep every id in place, so unique ids stay unique |
| `App.TodoApp.constructor` | script.js:4-27 | starts with the recovered list, or an empty one when nothing was stored, with filter `all` and no edit in progress |
| `App.TodoApp.AddTodo` | script.js:65-82 | blank input leaves the list alone; otherwise exactly one item is appended, with the trimmed text, not done, the given id and timestamp, and earlier items are untouched; filter and edit state are unchanged; text validity is kept, and id uniqueness is kept when the id is fresh |
| `App.TodoApp.DeleteTodo` | script.js:89-93 | the list becomes the items with another id, in order; nothing else changes; both invariants are kept |
| `App.TodoApp.ToggleComplete` | script.js:98-104 | the list becomes the toggled list; nothing else changes; both invariants are kept |
| `App.TodoApp.StartEditing` | script.js:107-109 | `editingId` becomes the given id, overwriting any edit in progress; the list and filter are unchanged |
| `App.TodoApp.SaveEdit` | script.js:122-135 | a non-blank trimmed text renames the items whose id was `editingId`; a blank text or no edit in progress leaves the list alone; the edit ends in every case; the filter is unchanged; both invariants are kept |
| `App.TodoApp.CancelEdit` | script.js:138-141 | the edit ends; the list and filter are unchanged, so a second cancel changes nothing |
| `App.TodoApp.SetFilter` | script.js:144-145 | stores the filter name as given; the list and edit state are unchanged |
| `App.TodoApp.ClearCompleted` | script.js:157-161 | the list becomes its items not done; no done item remains; the active count is unchanged; both invariants are kept |
| `App.TodoApp.DownloadTodos` | script.js:164-171 | the export holds the whole list and the date, and its total, completed and active counts partition the list |
| `Scenarios.AddThenBlank` | script.js:65-82 | an add followed by a blank add leaves exactly one item, with the first text |
| `Scenarios.ToggleOneOfTwo` | script.js:98-104 | with two items and the first toggled, one is active, one is completed, and the `completed` view is just the first |
| `Scenarios.ClearNothingDone` | script.js:157-161 | clearing when nothing is done keeps the list |
| `Scenarios.ClearAfterToggle` | script.js:157-161 | clearing after the only item is toggled empties the list |
| `Scenarios.BlankEdit` | script.js:122-135 | saving a blank edit keeps the text and ends the edit |
| `Scenarios.SecondEditWins` | script.js:107-108 | a second `startEditing` discards the first edit, so the save renames only the second item |
| `Scenarios.ExportTwo` | script.js:164-171 | exporting two items, one of them done, gives counts 2, 1 and 1 |

## Left out

- Browser storage: `loadTodos` and `saveTodos` read and write `localStorage` through `JSON.parse` and `JSON.stringify` (script.js:19-32). The model takes the recovered list as a constructor parameter and does not model saving. The reconstruction of `createdAt` from its serialised form is out too.
- The clock: `Date.now()` and `new Date()` (script.js:71, 74, 167, 179) are parameters.
- Scheduling: the 200 ms `setTimeout` in `deleteTodo` and the focus timer in `startEditing` (script.js:89-93, 112-118). The delete callback is modelled as an atomic step that reads the list when it runs. The check that the item's element exists (script.js:86-87) is a page query and is left out.
- `App.TodoApp.SaveEdit`: the lookup of the edit field (script.js:123-124) throws when no edit field is shown; the model takes the text as a parameter and leaves the list unchanged when no edit is in progress.
- `App.TodoApp.StartEditing` does not take the `text` argument of `startEditing(id, text)`, because the source never uses it.
- Page output: `createTodoHTML` (script.js:205-252) is left out, except its edit-mode test, which is the `editing` flag of a rendered row. Also left out are the writes of `updateCounts` (script.js:264-275), the filter-button classes in `setFilter` (script.js:147-151) and the event wiring of `bindEvents` and `handleEditKeyPress` (script.js:35-62, 255-261). `setFilter` throws after storing the name when no button carries that name; that failure is left out because it is a page lookup.
- Export plumbing: the Blob, object-URL and download-link steps of `downloadTodos` and its `todos-YYYY-MM-DD.json` file name (script.js:173-183) are left out. Only the document's fields are modelled.
- Strings are sequences of Unicode code points, not UTF-16 units. `trim` removes only characters of the Basic Multilingual Plane, so the two views agree.
