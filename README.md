# A verified model of the to-do list manager

This project models the state and rules of the `TodoList` React component of
a single-page to-do list (`src/Components/TodoList.js`). The component holds:

- the item list `todos`;
- the three drafts `input`, `dueDate` and `priority`, all strings;
- the view preferences `filter` and `sortCriteria`, also strings;
- the theme flag `darkMode`.

Its handlers add, delete, complete and edit items, guard the priority draft
and flip the theme. On every render it derives the displayed list: the items
are filtered by completion status and then stably sorted by due date or by
priority.

Layout, one module per file:

- `js_text.dfy` (`JsText`): `String.prototype.trim`, and `Number()` on empty
  and all-digit strings.
- `todos.dfy` (`Todos`): the item record, the priority-entry guard, the two
  sort keys, and the three positional list edits. These are `splice(index, 1)`
  and the two field assignments.
- `stable_sort.dfy` (`StableSort`): `Array.prototype.sort` with a key
  comparator, modelled as a stable insertion sort.
- `todo_views.dfy` (`TodoViews`): `filteredTodos` and `sortedTodos` as pure
  functions, with their lemmas. It also pairs each rendered row with the
  backing position of the item it shows.
- `todo_list.dfy` (`TodoStore`): the class `TodoList`. Its fields are the
  component's state variables and its methods are the handlers. They work on
  `seq` fields, as the handlers copy the array and change the copy.

Three behaviours of the code that the model keeps:

- An item without a priority stores `""`. `Number("")` is 0, so such items
  sort before priorities 1 to 5.
- `JSON.parse` throws on stored data it cannot parse. The code has no
  fallback, so none is modelled.
- `addTodo` reads the three drafts from the state.

Every handler of the class keeps the draft priority accepted by the entry
guard (`Valid()`): `AddTodo` and `ChangePriority` require and ensure it, and
every other handler ensures `old(Valid()) ==> Valid()`.

## Model

| member | source | states |
|---|---|---|
| `JsText.TrimEmptyIff` | src/Components/TodoList.js:50 | `input.trim() !== ''` fails exactly when the input is all white space, the empty string included. |
| `JsText.TrimStartCuts` | src/Components/TodoList.js:50 | Trimming the start leaves a suffix that does not start with white space. Everything cut off is white space. |
| `JsText.TrimEndCuts` | src/Components/TodoList.js:50 | Trimming the end leaves a prefix that does not end with white space. Everything cut off is white space. |
| `JsText.TrimIsInnerSlice` | src/Components/TodoList.js:50 | The trimmed text is a slice of the input that neither starts nor ends with white space. Everything cut off on either side is white space. |
| `Todos.PriorityAcceptedForms` | src/Components/TodoList.js:140-145 | The guard accepts `""` or a string whose Number() is in [1,5]. For digit strings these are exactly some `'0'`s followed by one digit from `'1'` to `'5'`. |
| `Todos.PriorityKeyOfAccepted` | src/Components/TodoList.js:98 | For an accepted priority, the numeric key is at most 5. It is 0 exactly for `""`. |
| `Todos.ParseDateDigits` | src/Components/TodoList.js:95 | A well-formed `YYYY-MM-DD` value parses to the year, month and day its digits spell. |
| `Todos.DateKeyOrder` | src/Components/TodoList.js:95 | On well-formed dates, the due-date key order is calendar order (year, then month, then day). Equal keys mean the same date. |
| `Todos.SpliceStart` | src/Components/TodoList.js:61 | The start of `splice(index, 1)`. A non-negative in-range index is used as is. A negative index counts from the end. Out-of-range values clamp to 0 or to the length. |
| `Todos.RemovedAt` | src/Components/TodoList.js:59-63 | Deleting at an index inside the list drops the length by one. Earlier items keep their positions and later items move up by one. Exactly that item leaves the multiset. |
| `Todos.RemovedPastEnd` | src/Components/TodoList.js:61 | An index past the end deletes nothing. |
| `Todos.ToggledTwice` | src/Components/TodoList.js:66-70 | Toggling flips only item i's `isCompleted`. Length and other items are unchanged, and toggling twice restores the list. |
| `Todos.EditedExactly` | src/Components/TodoList.js:73-77 | Editing sets item i's text to exactly the new text, with no trim and no empty check. Everything else is unchanged, the last edit wins, and re-storing the old text is the identity. |
| `StableSort.SortByPermutes` | src/Components/TodoList.js:93-101 | The sorted list is a permutation of its input. |
| `StableSort.SortByFrom` | src/Components/TodoList.js:93-101 | Every element of the sorted list comes from the input. |
| `StableSort.SortBySorted` | src/Components/TodoList.js:93-101 | The sorted list is non-decreasing in the comparator's key. |
| `StableSort.SortByStable` | src/Components/TodoList.js:93-101 | Stability: for every key value, the items with that key keep their input order. |
| `StableSort.SortByConstantKey` | src/Components/TodoList.js:100 | A comparator that always returns 0 leaves the order unchanged. |
| `StableSort.SortByMap` | src/Components/TodoList.js:184-195 | Sorting commutes with a projection that keeps the key. Sorting rows and then dropping their positions equals sorting the items. |
| `TodoViews.FilteredAppend` | src/Components/TodoList.js:85-90 | Filtering a concatenation filters each part. |
| `TodoViews.FilteredCounts` | src/Components/TodoList.js:85-90 | The filtered list holds each kept item as often as the list does, and no other item. |
| `TodoViews.FilteredKeepsAll` | src/Components/TodoList.js:86-89 | Filter `'all'`, and any value other than `'active'` or `'completed'`, gives back the whole list in order. |
| `TodoViews.FilteredNoLonger` | src/Components/TodoList.js:85-101 | The filtered and sorted views are never longer than the list. |
| `TodoViews.FiltersPartition` | src/Components/TodoList.js:87-88 | `'active'` keeps only open items and `'completed'` only finished ones. Together they partition the list, as multisets and in length. |
| `TodoViews.FilteredIsSubsequence` | src/Components/TodoList.js:85-90 | The filtered list is the order-preserving subsequence at the kept positions. Positions increase, row k is the item at the k-th kept position, and every kept position has a row. |
| `TodoViews.RowsCoverKept` | src/Components/TodoList.js:85-90 | Every position whose item the filter keeps has a row. |
| `TodoViews.RowsAreKeptPositions` | src/Components/TodoList.js:85-90 | A position of the list has a row exactly when the filter keeps the item there. |
| `TodoViews.ViewIsStableSort` | src/Components/TodoList.js:93-101 | `sortedTodos` is a permutation of `filteredTodos`. It is ordered by the criteria's key and stable among equal keys. |
| `TodoViews.ViewUnsorted` | src/Components/TodoList.js:100 | With `sortCriteria` `''` (or any unknown value), `sortedTodos` equals `filteredTodos`. |
| `TodoViews.ViewIsBackingList` | src/Components/TodoList.js:184-195 | With filter `'all'` and no sort criteria, the view is the list itself, so a row number is a backing index. |
| `TodoViews.ViewByPriority` | src/Components/TodoList.js:97-98 | Sorted by priority, the view is non-decreasing in Number(priority). When every priority passed the guard, items with priority `''` come first. |
| `TodoViews.ViewByDueDate` | src/Components/TodoList.js:94-95 | Sorted by due date, a view whose items all have well-formed dates is in calendar order. |
| `TodoViews.ViewRows` | src/Components/TodoList.js:184-195 | The sorted rows, with positions, have as many entries as the filtered list has items. |
| `TodoViews.ViewRowsProject` | src/Components/TodoList.js:184-192 | Dropping the positions of the sorted rows gives exactly `sortedTodos`. |
| `TodoViews.ViewRowAt` | src/Components/TodoList.js:184-195 | Row k's position is a valid index into the list, and the item there is the one rendered in row k. |
| `TodoViews.ViewRowsShowView` | src/Components/TodoList.js:184-195 | The same for all rows at once. |
| `TodoViews.AddedItemInViews` | src/Components/TodoList.js:51 | A new, open item joins the end of the `'all'` and `'active'` views and never the `'completed'` view. |
| `TodoViews.ToggledMovesBetweenViews` | src/Components/TodoList.js:66-70 | Toggling moves exactly one item between the `'active'` and `'completed'` views. The toggled item leaves the view it was in and joins the other at the same place. The items before and after it are the same in both views, and the two lengths change by one in opposite directions. |
| `TodoViews.FilteredAround` | src/Components/TodoList.js:85-90 | A filtered list is the filtered part before position i, the item at i when the filter keeps it, then the filtered part after i. |
| `TodoViews.EditedKeepsFilter` | src/Components/TodoList.js:73-77 | Editing a text never changes which items a filter shows. |
| `TodoViews.TwoItemsSwap` | src/Components/TodoList.js:93-101 | Two items out of key order are swapped by the sort. |
| `TodoViews.MilkAndDentist` | src/Components/TodoList.js:93-101 | Example: "Buy milk" (2025-01-01, priority 3) is added before "Call dentist" (2024-12-01, priority 1). Both sorts show the dentist first. |
| `TodoViews.PrioritiesThreeOneEmptyOne` | src/Components/TodoList.js:97-98 | Example: priorities 3, 1, `''`, 1 sort to `''`, the first 1, the second 1, then 3. |
| `TodoStore.TodoList.constructor` | src/Components/TodoList.js:11-32 | Initial state: the stored list, empty drafts, filter `'all'`, no sort criteria, light theme. |
| `TodoStore.TodoList.AddTodo` | src/Components/TodoList.js:49-56 | Non-blank input: exactly one item `{text: input, isCompleted: false, dueDate, priority}` is appended, earlier items are unchanged, and the drafts become `''`. Blank input: nothing changes. Preferences are untouched, and accepted priorities stay accepted. |
| `TodoStore.TodoList.DeleteTodo` | src/Components/TodoList.js:59-63 | The list becomes `splice(index, 1)` of the old list. For 0 <= i < length that is `todos[..i] + todos[i+1..]`, one shorter. Past the end it is unchanged. Nothing else changes. |
| `TodoStore.TodoList.ToggleComplete` | src/Components/TodoList.js:66-70 | In range: the list becomes the toggled list. Out of range, where JavaScript throws: nothing changes. Other fields are unchanged. |
| `TodoStore.TodoList.EditTodo` | src/Components/TodoList.js:73-77 | In range: item i's text becomes exactly `newText`. Out of range, where JavaScript throws: nothing changes. Other fields are unchanged. |
| `TodoStore.TodoList.ToggleDarkMode` | src/Components/TodoList.js:80-82 | `darkMode` is negated and nothing else changes, so two calls restore it. |
| `TodoStore.TodoList.ChangePriority` | src/Components/TodoList.js:140-145 | The draft priority becomes the value if the guard accepts it, and otherwise stays as it was. The draft stays accepted. |
| `TodoStore.TodoList.ChangeInput` | src/Components/TodoList.js:121 | The text draft becomes the typed value, and nothing else changes. |
| `TodoStore.TodoList.ChangeDueDate` | src/Components/TodoList.js:130 | The date draft becomes the picked value, and nothing else changes. |
| `TodoStore.TodoList.SetFilter` | src/Components/TodoList.js:161-169 | Only the filter preference changes. |
| `TodoStore.TodoList.SetSortCriteria` | src/Components/TodoList.js:174-179 | Only the sort preference changes. |
| `TodoStore.RowNumberIsNotBackingIndex` | src/Components/TodoList.js:193-194 | The wiring as written passes the row number of the filtered view as a backing index. With a finished item before an open one under `'active'`, Delete on the only row removes the hidden finished item and keeps the one shown. Complete reopens the hidden item. |
| `TodoStore.TodoList.DeleteRow` | src/Components/TodoList.js:193 | Corrected wiring: row k's Delete removes the item at that row's backing position. That item is the one row k shows, and it is the only item that leaves the list. |
| `TodoStore.TodoList.ToggleRow` | src/Components/TodoList.js:194 | Corrected wiring: row k's Complete/Undo flips the item row k shows. |
| `TodoStore.TodoList.EditRow` | src/Components/TodoList.js:195 | Corrected wiring: an edit committed in row k sets the text of the item row k shows. |
| `TodoStore.RowPositionDeletesShownItem` | src/Components/TodoList.js:193 | The corrected wiring on the same state as the as-written example removes the shown open item. |

## Findings

| source | as written | input that shows it | evidently intended | confidence | as-written member | corrected member |
|---|---|---|---|---|---|---|
| src/Components/TodoList.js:184-195 | Each rendered row passes its row number in the filtered and sorted view to `deleteTodo`, `toggleComplete` and `editTodo`. These handlers treat it as an index into the backing `todos`. | `todos = [{text: "write report", isCompleted: true}, {text: "buy milk", isCompleted: false}]`, filter `'active'`. The only row shows "buy milk". Its Delete removes "write report", and its Complete reopens "write report". | The handlers act on the item the row shows. | high; not executed | `TodoStore.RowNumberIsNotBackingIndex` | `TodoStore.TodoList.DeleteRow` |

The corrected wiring pairs each row with the backing position of its item
(`TodoViews.ViewRows`). `TodoViews.ViewRowsShowView` proves that the position
is in range and that it holds the shown item. `ToggleRow` and `EditRow` are
corrected in the same way as `DeleteRow`. The backing-index operations
(`DeleteTodo`, `ToggleComplete`, `EditTodo`) stay as the code has them. The
as-written wiring is correct when the view is the list itself
(`TodoViews.ViewIsBackingList`). In general, row k acts on the item it shows
exactly when `todos[k] == View(todos, filter, sortCriteria)[k]`.

## Left out

- Rendering, CSS classes, icons and the `TransitionGroup`/`CSSTransition` animation (lines 103-203): presentation only.
- Loading from and saving to `localStorage` with `JSON.parse`/`JSON.stringify` (lines 11-14, 35-37): browser I/O. The constructor takes the already-parsed list as a parameter.
- The `document.body.classList` effect (lines 40-46) and the `min` date from `new Date()` (line 131): DOM side effects and the clock.
- `src/Components/TodoItem.js` and `tailwind.config.js` are not part of this model. The first is a presentation component whose edit box forwards its text on blur or Enter; the second is styling configuration.
- Aliasing: `[...todos]` is a shallow copy, so `toggleComplete` and `editTodo` also change the item object that the previous state array shares. The model works on values. It captures the new state, not the change to the discarded old one.
- `JsText.NumberOf`: models `Number()` only for `""` and all-digit strings. A number input can also supply forms such as `"2.5"` or `"1e0"`, which the source accepts as priorities; the model reads them as NaN and rejects them.
- `Todos.PriorityKey`: reads NaN as 0. In JavaScript `NaN - x` makes the comparator inconsistent. Only stored data not written by this component can hold such a priority. Every handler keeps accepted priorities accepted.
- `Todos.DateKey`: reads an empty or malformed date as 0. In JavaScript `new Date('')` is an Invalid Date and the comparator returns NaN. A view that mixes dated and undated items then has an engine-dependent order. `TodoViews.ViewByDueDate` therefore requires well-formed dates, and day-of-month is only checked to lie in 1 to 31.
- `TodoStore.TodoList.ToggleComplete` and `TodoStore.TodoList.EditTodo`: the TypeError for an index outside the list is modelled as `ok == false` with no state change. The exception itself is not propagated.
