/** The state of the TodoList component and the handlers that change it.
    Every React state variable is a field; every setter call of a handler is
    an assignment to that field. */
module TodoStore {
  import opened JsText
  import opened Todos
  import opened TodoViews

  class TodoList {
    var todos: seq<Todo>
    var input: string
    var dueDate: string
    var priority: string
    var filter: string
    var sortCriteria: string
    var darkMode: bool

    /** The draft priority only ever holds a value the entry guard accepted:
        it starts as "" and only the guarded handler and addTodo write it. */
    ghost predicate Valid()
      reads this
    {
      PriorityAccepted(priority)
    }

    /** Every stored item's priority passed the entry guard. Items added
        through addTodo always do; items read back from local storage do when
        this component wrote them. */
    ghost predicate StoredPrioritiesAccepted()
      reads this
    {
      forall i :: 0 <= i < |todos| ==> PriorityAccepted(todos[i].priority)
    }

    /** The initial state. `stored` is the list read back from local storage,
        or [] when nothing is stored there. */
    constructor (stored: seq<Todo>)
      ensures Valid()
      ensures todos == stored
      ensures input == "" && dueDate == "" && priority == ""
      ensures filter == "all" && sortCriteria == "" && !darkMode
    {
      todos := stored;
      input, dueDate, priority := "", "", "";
      filter, sortCriteria := "all", "";
      darkMode := false;
    }

    /** `sortedTodos`: the list as rendered. Deriving it never changes the
        state (it reads the fields and modifies nothing). */
    function SortedTodos(): seq<Todo>
      reads this
    {
      View(todos, filter, sortCriteria)
    }

    /** addTodo: a draft whose trimmed text is not empty (one that is not all
        white space) becomes a new open item at the end, holding the untrimmed
        text, and the three drafts are cleared; a blank draft leaves the whole
        state as it was. */
    method AddTodo()
      requires Valid()
      modifies this
      ensures Valid()
      ensures !AllWhiteSpace(old(input)) ==>
                todos == old(todos) + [Todo(old(input), false, old(dueDate), old(priority))] &&
                |todos| == |old(todos)| + 1 &&
                input == "" && dueDate == "" && priority == ""
      ensures AllWhiteSpace(old(input)) ==>
                todos == old(todos) && input == old(input) &&
                dueDate == old(dueDate) && priority == old(priority)
      ensures filter == old(filter) && sortCriteria == old(sortCriteria) && darkMode == old(darkMode)
      ensures old(StoredPrioritiesAccepted()) ==> StoredPrioritiesAccepted()
    {
      TrimEmptyIff(input);
      if Trim(input) != "" {
        var item := Todo(input, false, dueDate, priority);
        assert PriorityAccepted(item.priority);
        todos, input, dueDate, priority := todos + [item], "", "", "";
      }
    }

    /** deleteTodo: `splice(index, 1)` on a copy of the list. An index inside
        the list removes that item, a negative one counts from the end, and an
        index past the end removes nothing. */
    method DeleteTodo(index: int)
      modifies this
      ensures old(Valid()) ==> Valid()
      ensures todos == Removed(old(todos), index)
      ensures 0 <= index < |old(todos)| ==>
                todos == old(todos)[..index] + old(todos)[index + 1..] &&
                |todos| == |old(todos)| - 1
      ensures index >= |old(todos)| ==> todos == old(todos)
      ensures input == old(input) && dueDate == old(dueDate) && priority == old(priority)
      ensures filter == old(filter) && sortCriteria == old(sortCriteria) && darkMode == old(darkMode)
      ensures old(StoredPrioritiesAccepted()) ==> StoredPrioritiesAccepted()
    {
      var newTodos := todos;
      var start := SpliceStart(|newTodos|, index);
      if start < |newTodos| {
        newTodos := newTodos[..start] + newTodos[start + 1..];
      }
      todos := newTodos;
    }

    /** toggleComplete: flips the completion flag of the item at index. For
        an index outside the list, `newTodos[index]` is undefined and reading
        a field of it throws a TypeError before anything is written: `ok` is
        false and the state is unchanged. */
    method ToggleComplete(index: int) returns (ok: bool)
      modifies this
      ensures old(Valid()) ==> Valid()
      ensures ok <==> 0 <= index < |old(todos)|
      ensures ok ==> todos == Toggled(old(todos), index)
      ensures !ok ==> todos == old(todos)
      ensures |todos| == |old(todos)|
      ensures input == old(input) && dueDate == old(dueDate) && priority == old(priority)
      ensures filter == old(filter) && sortCriteria == old(sortCriteria) && darkMode == old(darkMode)
      ensures old(StoredPrioritiesAccepted()) ==> StoredPrioritiesAccepted()
    {
      if 0 <= index < |todos| {
        var newTodos := todos;
        newTodos := newTodos[index := newTodos[index].(isCompleted := !newTodos[index].isCompleted)];
        todos := newTodos;
        ok := true;
      } else {
        ok := false;
      }
    }

    /** editTodo: the item at index gets exactly `newText`, untrimmed and
        possibly empty. An index outside the list throws a TypeError, as in
        ToggleComplete. */
    method EditTodo(index: int, newText: string) returns (ok: bool)
      modifies this
      ensures old(Valid()) ==> Valid()
      ensures ok <==> 0 <= index < |old(todos)|
      ensures ok ==> todos == Edited(old(todos), index, newText) && todos[index].text == newText
      ensures !ok ==> todos == old(todos)
      ensures |todos| == |old(todos)|
      ensures input == old(input) && dueDate == old(dueDate) && priority == old(priority)
      ensures filter == old(filter) && sortCriteria == old(sortCriteria) && darkMode == old(darkMode)
      ensures old(StoredPrioritiesAccepted()) ==> StoredPrioritiesAccepted()
    {
      if 0 <= index < |todos| {
        var newTodos := todos;
        newTodos := newTodos[index := newTodos[index].(text := newText)];
        todos := newTodos;
        ok := true;
      } else {
        ok := false;
      }
    }

    /** toggleDarkMode: flips the theme flag and nothing else. */
    method ToggleDarkMode()
      modifies this
      ensures old(Valid()) ==> Valid()
      ensures darkMode == !old(darkMode)
      ensures todos == old(todos) && input == old(input) && dueDate == old(dueDate) && priority == old(priority)
      ensures filter == old(filter) && sortCriteria == old(sortCriteria)
    {
      darkMode := !darkMode;
    }

    /** The change handler of the priority input: stores the value only when
        it is "" or a number from 1 to 5, and otherwise keeps the old draft. */
    method ChangePriority(value: string)
      requires Valid()
      modifies this
      ensures Valid()
      ensures priority == if PriorityAccepted(value) then value else old(priority)
      ensures todos == old(todos) && input == old(input) && dueDate == old(dueDate)
      ensures filter == old(filter) && sortCriteria == old(sortCriteria) && darkMode == old(darkMode)
    {
      if value == "" || (match NumberOf(value) case Some(n) => 1 <= n && n <= 5 case None => false) {
        priority := value;
      }
    }

    /** The change handler of the text input: stores what was typed. */
    method ChangeInput(value: string)
      modifies this
      ensures old(Valid()) ==> Valid()
      ensures input == value
      ensures todos == old(todos) && dueDate == old(dueDate) && priority == old(priority)
      ensures filter == old(filter) && sortCriteria == old(sortCriteria) && darkMode == old(darkMode)
    {
      input := value;
    }

    /** The change handler of the date input: stores the picked date. */
    method ChangeDueDate(value: string)
      modifies this
      ensures old(Valid()) ==> Valid()
      ensures dueDate == value
      ensures todos == old(todos) && input == old(input) && priority == old(priority)
      ensures filter == old(filter) && sortCriteria == old(sortCriteria) && darkMode == old(darkMode)
    {
      dueDate := value;
    }

    /** The three filter buttons call `setFilter` with "all", "active" or
        "completed". */
    method SetFilter(value: string)
      modifies this
      ensures old(Valid()) ==> Valid()
      ensures filter == value
      ensures todos == old(todos) && input == old(input) && dueDate == old(dueDate) && priority == old(priority)
      ensures sortCriteria == old(sortCriteria) && darkMode == old(darkMode)
    {
      filter := value;
    }

    /** The two sort buttons call `setSortCriteria` with "dueDate" or
        "priority". */
    method SetSortCriteria(value: string)
      modifies this
      ensures old(Valid()) ==> Valid()
      ensures sortCriteria == value
      ensures todos == old(todos) && input == old(input) && dueDate == old(dueDate) && priority == old(priority)
      ensures filter == old(filter) && darkMode == old(darkMode)
    {
      sortCriteria := value;
    }

    // -------------------------------------------------------------------
    // Handlers by rendered row: each row is wired to the backing position of
    // the item it shows, instead of to its row number.
    // -------------------------------------------------------------------

    /** The Delete button of row `row` removes the item that row shows. */
    method DeleteRow(row: nat)
      requires row < |SortedTodos()|
      modifies this
      ensures old(Valid()) ==> Valid()
      ensures var p := ViewRows(old(todos), old(filter), old(sortCriteria))[row].position;
              p < |old(todos)| && old(todos)[p] == old(SortedTodos())[row] &&
              todos == old(todos)[..p] + old(todos)[p + 1..]
      ensures multiset(todos) + multiset{old(SortedTodos())[row]} == multiset(old(todos))
      ensures input == old(input) && dueDate == old(dueDate) && priority == old(priority)
      ensures filter == old(filter) && sortCriteria == old(sortCriteria) && darkMode == old(darkMode)
    {
      ViewRowsShowView(todos, filter, sortCriteria);
      var p := ViewRows(todos, filter, sortCriteria)[row].position;
      RemovedAt(todos, p);
      DeleteTodo(p);
    }

    /** The Complete/Undo button of row `row` flips the item that row shows. */
    method ToggleRow(row: nat)
      requires row < |SortedTodos()|
      modifies this
      ensures old(Valid()) ==> Valid()
      ensures var p := ViewRows(old(todos), old(filter), old(sortCriteria))[row].position;
              p < |old(todos)| && old(todos)[p] == old(SortedTodos())[row] &&
              todos == Toggled(old(todos), p)
      ensures input == old(input) && dueDate == old(dueDate) && priority == old(priority)
      ensures filter == old(filter) && sortCriteria == old(sortCriteria) && darkMode == old(darkMode)
    {
      ViewRowsShowView(todos, filter, sortCriteria);
      var p := ViewRows(todos, filter, sortCriteria)[row].position;
      var ok := ToggleComplete(p);
    }

    /** Committing an edit in row `row` sets the text of the item that row
        shows. */
    method EditRow(row: nat, newText: string)
      requires row < |SortedTodos()|
      modifies this
      ensures old(Valid()) ==> Valid()
      ensures var p := ViewRows(old(todos), old(filter), old(sortCriteria))[row].position;
              p < |old(todos)| && old(todos)[p] == old(SortedTodos())[row] &&
              todos == Edited(old(todos), p, newText)
      ensures input == old(input) && dueDate == old(dueDate) && priority == old(priority)
      ensures filter == old(filter) && sortCriteria == old(sortCriteria) && darkMode == old(darkMode)
    {
      ViewRowsShowView(todos, filter, sortCriteria);
      var p := ViewRows(todos, filter, sortCriteria)[row].position;
      var ok := EditTodo(p, newText);
    }
  }

  lemma ActiveOfDoneOpen(done: Todo, open: Todo)
    requires done.isCompleted && !open.isCompleted
    ensures Filtered([done, open], "active") == [open]
  {
    assert [done, open][1..] == [open];
    assert [open][1..] == [];
    assert Filtered([open], "active") == [open] + Filtered([], "active");
  }

  /** As written, row k's handlers call deleteTodo(k), toggleComplete(k) and
      editTodo(k, ...) with the row number itself. Under the "active" filter,
      with a finished item before an open one, the only row shows the open
      item, yet its Delete button removes the finished, hidden item and keeps
      the one shown, and its Complete button reopens the hidden item. */
  lemma RowNumberIsNotBackingIndex(done: Todo, open: Todo)
    requires done.isCompleted && !open.isCompleted
    ensures View([done, open], "active", "") == [open]
    ensures Removed([done, open], 0) == [open]
    ensures Toggled([done, open], 0) == [done.(isCompleted := false), open]
  {
    ActiveOfDoneOpen(done, open);
    ViewUnsorted([done, open], "active", "");
  }

  /** The same state with the rows wired to backing positions: the Delete
      button of the only row removes the open item it shows. */
  lemma RowPositionDeletesShownItem(done: Todo, open: Todo)
    requires done.isCompleted && !open.isCompleted
    ensures |ViewRows([done, open], "active", "")| == 1
    ensures Removed([done, open], ViewRows([done, open], "active", "")[0].position) == [done]
  {
    var todos := [done, open];
    ActiveOfDoneOpen(done, open);
    ViewUnsorted(todos, "active", "");
    ViewRowAt(todos, "active", "", 0);
    var p := ViewRows(todos, "active", "")[0].position;
    assert todos[p] == open;
    assert p == 1;
    assert todos[..1] + todos[2..] == [done];
  }
}
