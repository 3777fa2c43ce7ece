/** The list the component renders: the items filtered by completion status
    (`filteredTodos`) and then stably sorted by due date or priority
    (`sortedTodos`). Also the rows of that view paired with the backing
    positions of their items. */
module TodoViews {
  import opened JsText
  import opened Todos
  import opened StableSort

  // ---------------------------------------------------------------------
  // Filter
  // ---------------------------------------------------------------------

  /** The callback given to `todos.filter`: "active" keeps open items,
      "completed" keeps finished ones, "all" and every other value keep all. */
  predicate Keep(filter: string, t: Todo) {
    if filter == "all" then true
    else if filter == "active" then !t.isCompleted
    else if filter == "completed" then t.isCompleted
    else true
  }

  /** `todos.filter(...)`: a fresh list of the kept items in their order. */
  function Filtered(todos: seq<Todo>, filter: string): seq<Todo> {
    if todos == [] then []
    else (if Keep(filter, todos[0]) then [todos[0]] else []) + Filtered(todos[1..], filter)
  }

  /** Filtering a concatenation filters each part. */
  lemma {:induction false} FilteredAppend(a: seq<Todo>, b: seq<Todo>, filter: string)
    ensures Filtered(a + b, filter) == Filtered(a, filter) + Filtered(b, filter)
  {
    if a == [] {
      assert a + b == b;
    } else {
      assert (a + b)[0] == a[0] && (a + b)[1..] == a[1..] + b;
      FilteredAppend(a[1..], b, filter);
      var h := if Keep(filter, a[0]) then [a[0]] else [];
      assert Filtered(a + b, filter) == h + Filtered(a[1..] + b, filter);
      assert Filtered(a, filter) == h + Filtered(a[1..], filter);
    }
  }

  /** Each kept item occurs in the view as often as in the list, every other
      item not at all. */
  lemma {:induction false} FilteredCounts(todos: seq<Todo>, filter: string)
    ensures forall t :: multiset(Filtered(todos, filter))[t] ==
                          if Keep(filter, t) then multiset(todos)[t] else 0
    ensures forall t :: t in Filtered(todos, filter) <==> t in todos && Keep(filter, t)
  {
    if todos != [] {
      FilteredCounts(todos[1..], filter);
      assert todos == [todos[0]] + todos[1..];
    }
    forall t ensures t in Filtered(todos, filter) <==> t in todos && Keep(filter, t) {
      assert t in Filtered(todos, filter) <==> t in multiset(Filtered(todos, filter));
      assert t in todos <==> t in multiset(todos);
    }
  }

  /** "all" and any value other than "active" and "completed" show the whole
      list, in its order. */
  lemma {:induction false} FilteredKeepsAll(todos: seq<Todo>, filter: string)
    requires filter != "active" && filter != "completed"
    ensures Filtered(todos, filter) == todos
  {
    if todos != [] {
      FilteredKeepsAll(todos[1..], filter);
      assert todos == [todos[0]] + todos[1..];
    }
  }

  /** The view never holds more rows than the list has items, so a row
      number is always an index into the backing list. */
  lemma {:induction false} FilteredNoLonger(todos: seq<Todo>, filter: string)
    ensures |Filtered(todos, filter)| <= |todos|
    ensures forall criteria :: |View(todos, filter, criteria)| <= |todos|
  {
    if todos != [] {
      FilteredNoLonger(todos[1..], filter);
    }
  }

  /** "active" and "completed" split the list: every item is in exactly one
      of the two views, and together they hold the whole list. */
  lemma FiltersPartition(todos: seq<Todo>)
    ensures forall t :: t in Filtered(todos, "active") ==> !t.isCompleted
    ensures forall t :: t in Filtered(todos, "completed") ==> t.isCompleted
    ensures multiset(Filtered(todos, "active")) + multiset(Filtered(todos, "completed")) == multiset(todos)
    ensures |Filtered(todos, "active")| + |Filtered(todos, "completed")| == |todos|
  {
    FilteredCounts(todos, "active");
    FilteredCounts(todos, "completed");
    var a, c := multiset(Filtered(todos, "active")), multiset(Filtered(todos, "completed"));
    assert a + c == multiset(todos) by {
      forall t ensures (a + c)[t] == multiset(todos)[t] {
        assert Keep("active", t) != Keep("completed", t);
      }
    }
    assert |a + c| == |multiset(todos)|;
  }

  // ---------------------------------------------------------------------
  // Rows: the kept items with their positions in the backing list
  // ---------------------------------------------------------------------

  /** An item of the view together with its position in `todos`. */
  datatype Row = Row(position: nat, todo: Todo)

  function TodoOf(): Row -> Todo {
    (r: Row) => r.todo
  }

  /** The kept items of `todos`, each with base plus its index. */
  function RowsFrom(todos: seq<Todo>, filter: string, base: nat): seq<Row> {
    if todos == [] then []
    else (if Keep(filter, todos[0]) then [Row(base, todos[0])] else []) + RowsFrom(todos[1..], filter, base + 1)
  }

  function Rows(todos: seq<Todo>, filter: string): seq<Row> {
    RowsFrom(todos, filter, 0)
  }

  /** Row k holds a kept item and its position. */
  lemma {:induction false} RowsFromAt(todos: seq<Todo>, filter: string, base: nat, k: nat)
    requires k < |RowsFrom(todos, filter, base)|
    ensures base <= RowsFrom(todos, filter, base)[k].position < base + |todos|
    ensures RowsFrom(todos, filter, base)[k].todo == todos[RowsFrom(todos, filter, base)[k].position - base]
    ensures Keep(filter, RowsFrom(todos, filter, base)[k].todo)
  {
    var rest: seq<Row> := RowsFrom(todos[1..], filter, base + 1);
    var head: seq<Row> := if Keep(filter, todos[0]) then [Row(base, todos[0])] else [];
    assert RowsFrom(todos, filter, base) == head + rest;
    if k >= |head| {
      RowsFromAt(todos[1..], filter, base + 1, k - |head|);
      assert (head + rest)[k] == rest[k - |head|];
    }
  }

  /** Row positions increase along the rows. */
  lemma {:induction false} RowsFromIncreasing(todos: seq<Todo>, filter: string, base: nat, k: nat, l: nat)
    requires k < l < |RowsFrom(todos, filter, base)|
    ensures RowsFrom(todos, filter, base)[k].position < RowsFrom(todos, filter, base)[l].position
  {
    var rest: seq<Row> := RowsFrom(todos[1..], filter, base + 1);
    var head: seq<Row> := if Keep(filter, todos[0]) then [Row(base, todos[0])] else [];
    assert RowsFrom(todos, filter, base) == head + rest;
    assert (head + rest)[l] == rest[l - |head|];
    if k >= |head| {
      RowsFromIncreasing(todos[1..], filter, base + 1, k - |head|, l - |head|);
      assert (head + rest)[k] == rest[k - |head|];
    } else {
      RowsFromAt(todos[1..], filter, base + 1, l - 1);
    }
  }

  /** Every kept position has a row. */
  lemma {:induction false} RowsFromCover(todos: seq<Todo>, filter: string, base: nat, j: nat)
    requires j < |todos| && Keep(filter, todos[j])
    ensures exists k :: 0 <= k < |RowsFrom(todos, filter, base)| && RowsFrom(todos, filter, base)[k].position == base + j
  {
    var rest: seq<Row> := RowsFrom(todos[1..], filter, base + 1);
    var head: seq<Row> := if Keep(filter, todos[0]) then [Row(base, todos[0])] else [];
    assert RowsFrom(todos, filter, base) == head + rest;
    if j == 0 {
      assert (head + rest)[0].position == base;
    } else {
      assert todos[1..][j - 1] == todos[j];
      RowsFromCover(todos[1..], filter, base + 1, j - 1);
      var k :| 0 <= k < |rest| && rest[k].position == base + 1 + (j - 1);
      assert (head + rest)[|head| + k] == rest[k];
    }
  }

  /** Dropping the positions of the rows gives the filtered list. */
  lemma {:induction false} RowsFromProject(todos: seq<Todo>, filter: string, base: nat)
    ensures Map(RowsFrom(todos, filter, base), TodoOf()) == Filtered(todos, filter)
  {
    if todos != [] {
      var rest: seq<Row> := RowsFrom(todos[1..], filter, base + 1);
      var head: seq<Row> := if Keep(filter, todos[0]) then [Row(base, todos[0])] else [];
      RowsFromProject(todos[1..], filter, base + 1);
      MapAppend(head, rest, TodoOf());
    }
  }

  /** The filtered view is an order-preserving subsequence of the list: its
      k-th item is the item at the k-th kept position, and the positions
      increase. */
  lemma FilteredIsSubsequence(todos: seq<Todo>, filter: string)
    ensures |Rows(todos, filter)| == |Filtered(todos, filter)|
    ensures forall k :: 0 <= k < |Rows(todos, filter)| ==>
              Rows(todos, filter)[k].position < |todos| &&
              todos[Rows(todos, filter)[k].position] == Filtered(todos, filter)[k]
    ensures forall k, l :: 0 <= k < l < |Rows(todos, filter)| ==>
              Rows(todos, filter)[k].position < Rows(todos, filter)[l].position
    ensures forall j :: 0 <= j < |todos| && Keep(filter, todos[j]) ==>
              exists k :: 0 <= k < |Rows(todos, filter)| && Rows(todos, filter)[k].position == j
  {
    var rs := Rows(todos, filter);
    RowsFromProject(todos, filter, 0);
    forall k | 0 <= k < |rs| ensures rs[k].position < |todos| && todos[rs[k].position] == Filtered(todos, filter)[k] {
      RowsFromAt(todos, filter, 0, k);
      assert Map(rs, TodoOf())[k] == rs[k].todo;
    }
    forall k, l | 0 <= k < l < |rs| ensures rs[k].position < rs[l].position {
      RowsFromIncreasing(todos, filter, 0, k, l);
    }
    RowsCoverKept(todos, filter);
  }

  /** Every kept position has a row. */
  lemma RowsCoverKept(todos: seq<Todo>, filter: string)
    ensures forall j :: 0 <= j < |todos| && Keep(filter, todos[j]) ==>
              exists k :: 0 <= k < |Rows(todos, filter)| && Rows(todos, filter)[k].position == j
  {
    var rs := Rows(todos, filter);
    forall j | 0 <= j < |todos| && Keep(filter, todos[j])
      ensures exists k :: 0 <= k < |rs| && rs[k].position == j
    {
      RowsFromCover(todos, filter, 0, j);
      var k :| 0 <= k < |rs| && rs[k].position == 0 + j;
      assert rs[k].position == j;
    }
  }

  /** The positions of the rows are exactly the positions of the kept items. */
  lemma RowsAreKeptPositions(todos: seq<Todo>, filter: string)
    ensures forall j :: 0 <= j < |todos| ==>
              (Keep(filter, todos[j]) <==>
               exists k :: 0 <= k < |Rows(todos, filter)| && Rows(todos, filter)[k].position == j)
  {
    var rs := Rows(todos, filter);
    forall j | 0 <= j < |todos|
      ensures Keep(filter, todos[j]) <==> exists k :: 0 <= k < |rs| && rs[k].position == j
    {
      if exists k :: 0 <= k < |rs| && rs[k].position == j {
        var k :| 0 <= k < |rs| && rs[k].position == j;
        RowsFromAt(todos, filter, 0, k);
      }
      if Keep(filter, todos[j]) {
        RowsFromCover(todos, filter, 0, j);
      }
    }
  }

  // ---------------------------------------------------------------------
  // Sort
  // ---------------------------------------------------------------------

  /** The key behind the comparator of `filteredTodos.sort(...)`: the due
      date, the numeric priority, or, for any other criteria (the initial ""),
      0 for every item, which makes the comparator always answer 0. */
  function SortKey(criteria: string, t: Todo): int {
    if criteria == "dueDate" then DateKey(t.dueDate)
    else if criteria == "priority" then PriorityKey(t.priority)
    else 0
  }

  function KeyOf(criteria: string): Todo -> int {
    t => SortKey(criteria, t)
  }

  /** `sortedTodos`: the filtered list, sorted in place by the comparator. */
  function View(todos: seq<Todo>, filter: string, criteria: string): seq<Todo> {
    SortBy(Filtered(todos, filter), KeyOf(criteria))
  }

  /** The view is a permutation of the filtered list, ordered by the key of
      the sort criteria and stable: items with equal keys keep their order. */
  lemma ViewIsStableSort(todos: seq<Todo>, filter: string, criteria: string)
    ensures multiset(View(todos, filter, criteria)) == multiset(Filtered(todos, filter))
    ensures forall i, j :: 0 <= i < j < |View(todos, filter, criteria)| ==>
              SortKey(criteria, View(todos, filter, criteria)[i]) <= SortKey(criteria, View(todos, filter, criteria)[j])
    ensures forall k :: WithKey(View(todos, filter, criteria), KeyOf(criteria), k) ==
                        WithKey(Filtered(todos, filter), KeyOf(criteria), k)
  {
    SortByPermutes(Filtered(todos, filter), KeyOf(criteria));
    SortBySorted(Filtered(todos, filter), KeyOf(criteria));
    forall k ensures WithKey(View(todos, filter, criteria), KeyOf(criteria), k) ==
                     WithKey(Filtered(todos, filter), KeyOf(criteria), k) {
      SortByStable(Filtered(todos, filter), KeyOf(criteria), k);
    }
  }

  /** Every item of the view is a kept item of the list. */
  lemma ViewFromFiltered(todos: seq<Todo>, filter: string, criteria: string, i: nat)
    requires i < |View(todos, filter, criteria)|
    ensures View(todos, filter, criteria)[i] in Filtered(todos, filter)
  {
    SortByFrom(Filtered(todos, filter), KeyOf(criteria), i);
  }

  /** Two items of the view are in key order. */
  lemma ViewOrderedAt(todos: seq<Todo>, filter: string, criteria: string, i: nat, j: nat)
    requires i < j < |View(todos, filter, criteria)|
    ensures SortKey(criteria, View(todos, filter, criteria)[i]) <= SortKey(criteria, View(todos, filter, criteria)[j])
  {
    SortBySorted(Filtered(todos, filter), KeyOf(criteria));
    assert KeyOf(criteria)(View(todos, filter, criteria)[i]) <= KeyOf(criteria)(View(todos, filter, criteria)[j]);
  }

  /** With no sort criteria (or an unknown one) the view is the filtered list. */
  lemma ViewUnsorted(todos: seq<Todo>, filter: string, criteria: string)
    requires criteria != "dueDate" && criteria != "priority"
    ensures View(todos, filter, criteria) == Filtered(todos, filter)
  {
    SortByConstantKey(Filtered(todos, filter), KeyOf(criteria), 0);
  }

  /** On the initial preferences (filter "all", no sort criteria) the k-th
      row shown is the k-th item of the list, so a row index is a backing
      index. */
  lemma ViewIsBackingList(todos: seq<Todo>, filter: string, criteria: string)
    requires filter != "active" && filter != "completed"
    requires criteria != "dueDate" && criteria != "priority"
    ensures View(todos, filter, criteria) == todos
  {
    ViewUnsorted(todos, filter, criteria);
    FilteredKeepsAll(todos, filter);
  }

  /** Sorted by priority, the view is non-decreasing in Number(priority),
      and when every priority came through the entry guard, the items without
      a priority ("" counts as 0) come before all others. */
  lemma ViewByPriority(todos: seq<Todo>, filter: string)
    ensures forall i, j :: 0 <= i < j < |View(todos, filter, "priority")| ==>
              PriorityKey(View(todos, filter, "priority")[i].priority) <=
              PriorityKey(View(todos, filter, "priority")[j].priority)
    ensures (forall t :: t in todos ==> PriorityAccepted(t.priority)) ==>
              forall i, j :: (0 <= i < j < |View(todos, filter, "priority")| &&
                              View(todos, filter, "priority")[j].priority == "") ==>
                View(todos, filter, "priority")[i].priority == ""
  {
    var v := View(todos, filter, "priority");
    forall i, j | 0 <= i < j < |v|
      ensures PriorityKey(v[i].priority) <= PriorityKey(v[j].priority)
    {
      ViewOrderedAt(todos, filter, "priority", i, j);
    }
    if forall t :: t in todos ==> PriorityAccepted(t.priority) {
      forall i, j | 0 <= i < j < |v| && v[j].priority == "" ensures v[i].priority == "" {
        ViewFromFiltered(todos, filter, "priority", i);
        ViewFromFiltered(todos, filter, "priority", j);
        FilteredCounts(todos, filter);
        assert v[i] in multiset(Filtered(todos, filter)) && v[j] in multiset(Filtered(todos, filter));
        PriorityKeyOfAccepted(v[i].priority);
        PriorityKeyOfAccepted(v[j].priority);
      }
    }
  }

  /** Sorted by due date, a view whose items all carry well-formed dates is
      in calendar order. */
  lemma ViewByDueDate(todos: seq<Todo>, filter: string)
    requires forall t :: t in Filtered(todos, filter) ==> ParseDate(t.dueDate).Some?
    ensures forall i :: 0 <= i < |View(todos, filter, "dueDate")| ==>
              ParseDate(View(todos, filter, "dueDate")[i].dueDate).Some?
    ensures forall i, j :: 0 <= i < j < |View(todos, filter, "dueDate")| ==>
              !Before(ParseDate(View(todos, filter, "dueDate")[j].dueDate).value,
                      ParseDate(View(todos, filter, "dueDate")[i].dueDate).value)
  {
    var v := View(todos, filter, "dueDate");
    forall i | 0 <= i < |v| ensures ParseDate(v[i].dueDate).Some? {
      ViewFromFiltered(todos, filter, "dueDate", i);
    }
    forall i, j | 0 <= i < j < |v|
      ensures !Before(ParseDate(v[j].dueDate).value, ParseDate(v[i].dueDate).value)
    {
      ViewOrderedAt(todos, filter, "dueDate", i, j);
      assert SortKey("dueDate", v[i]) == DateKey(v[i].dueDate) && SortKey("dueDate", v[j]) == DateKey(v[j].dueDate);
      DateKeyOrder(v[j].dueDate, v[i].dueDate);
    }
  }

  // ---------------------------------------------------------------------
  // The rows of the view, with backing positions
  // ---------------------------------------------------------------------

  function RowKey(criteria: string): Row -> int {
    (r: Row) => SortKey(criteria, r.todo)
  }

  /** The rendered rows in display order, each with the position in `todos`
      of the item it shows: the rows of the filter sorted by the same key. */
  function ViewRows(todos: seq<Todo>, filter: string, criteria: string): (rs: seq<Row>)
    ensures |rs| == |Filtered(todos, filter)|
  {
    RowsFromProject(todos, filter, 0);
    SortBy(Rows(todos, filter), RowKey(criteria))
  }

  lemma RowKeyFactors(criteria: string)
    ensures forall y :: RowKey(criteria)(y) == KeyOf(criteria)(TodoOf()(y))
  {
  }

  /** Dropping the positions of the sorted rows gives the view. */
  lemma ViewRowsProject(todos: seq<Todo>, filter: string, criteria: string)
    ensures Map(ViewRows(todos, filter, criteria), TodoOf()) == View(todos, filter, criteria)
  {
    RowKeyFactors(criteria);
    SortByMap(Rows(todos, filter), TodoOf(), RowKey(criteria), KeyOf(criteria));
    RowsFromProject(todos, filter, 0);
  }

  /** Row k of the view shows the item at position ViewRows(...)[k].position
      of the backing list. */
  lemma ViewRowAt(todos: seq<Todo>, filter: string, criteria: string, k: nat)
    requires k < |ViewRows(todos, filter, criteria)|
    ensures k < |View(todos, filter, criteria)|
    ensures ViewRows(todos, filter, criteria)[k].position < |todos|
    ensures todos[ViewRows(todos, filter, criteria)[k].position] == View(todos, filter, criteria)[k]
  {
    ViewRowShows(todos, filter, criteria, k);
    ViewRowPosition(todos, filter, criteria, k);
  }

  lemma ViewRowShows(todos: seq<Todo>, filter: string, criteria: string, k: nat)
    requires k < |ViewRows(todos, filter, criteria)|
    ensures k < |View(todos, filter, criteria)|
    ensures View(todos, filter, criteria)[k] == ViewRows(todos, filter, criteria)[k].todo
  {
    var vr := ViewRows(todos, filter, criteria);
    ViewRowsProject(todos, filter, criteria);
    assert Map(vr, TodoOf())[k] == vr[k].todo;
  }

  lemma ViewRowPosition(todos: seq<Todo>, filter: string, criteria: string, k: nat)
    requires k < |ViewRows(todos, filter, criteria)|
    ensures ViewRows(todos, filter, criteria)[k].position < |todos|
    ensures todos[ViewRows(todos, filter, criteria)[k].position] == ViewRows(todos, filter, criteria)[k].todo
  {
    var rs := Rows(todos, filter);
    var vr := ViewRows(todos, filter, criteria);
    assert vr == SortBy(rs, RowKey(criteria));
    SortByFrom(rs, RowKey(criteria), k);
    RowsHold(todos, filter, vr[k]);
  }

  /** A row of the filter holds the item at its position. */
  lemma RowsHold(todos: seq<Todo>, filter: string, row: Row)
    requires row in Rows(todos, filter)
    ensures row.position < |todos| && todos[row.position] == row.todo
  {
    var rs := Rows(todos, filter);
    var l :| 0 <= l < |rs| && rs[l] == row;
    RowsFromAt(todos, filter, 0, l);
    assert row.position - 0 == row.position;
  }

  /** The rows and the view have the same length, and every row points at
      the item it shows. */
  lemma ViewRowsShowView(todos: seq<Todo>, filter: string, criteria: string)
    ensures |ViewRows(todos, filter, criteria)| == |View(todos, filter, criteria)|
    ensures forall k :: 0 <= k < |ViewRows(todos, filter, criteria)| ==>
              ViewRows(todos, filter, criteria)[k].position < |todos| &&
              todos[ViewRows(todos, filter, criteria)[k].position] == View(todos, filter, criteria)[k]
  {
    ViewRowsProject(todos, filter, criteria);
    forall k | 0 <= k < |ViewRows(todos, filter, criteria)|
      ensures ViewRows(todos, filter, criteria)[k].position < |todos| &&
              todos[ViewRows(todos, filter, criteria)[k].position] == View(todos, filter, criteria)[k]
    {
      ViewRowAt(todos, filter, criteria, k);
    }
  }

  // ---------------------------------------------------------------------
  // How the edits of the list show in the views
  // ---------------------------------------------------------------------

  /** A new item is open, so it joins the end of the "all" and "active"
      views and never the "completed" one. */
  lemma AddedItemInViews(todos: seq<Todo>, t: Todo, filter: string)
    requires !t.isCompleted
    ensures Filtered(todos + [t], filter) ==
            Filtered(todos, filter) + (if filter == "completed" then [] else [t])
  {
    FilteredAppend(todos, [t], filter);
    assert [t][1..] == [];
  }

  /** Toggling moves exactly one item between the "active" and the
      "completed" views: the toggled item leaves the view it was in and
      joins the other one at the same place, and the items before and after
      it stay as they were in both views. */
  lemma ToggledMovesBetweenViews(todos: seq<Todo>, i: nat)
    requires i < |todos|
    ensures Filtered(todos, "active") ==
            Filtered(todos[..i], "active") + (if todos[i].isCompleted then [] else [todos[i]]) +
            Filtered(todos[i + 1..], "active")
    ensures Filtered(Toggled(todos, i), "active") ==
            Filtered(todos[..i], "active") + (if todos[i].isCompleted then [Toggled(todos, i)[i]] else []) +
            Filtered(todos[i + 1..], "active")
    ensures Filtered(todos, "completed") ==
            Filtered(todos[..i], "completed") + (if todos[i].isCompleted then [todos[i]] else []) +
            Filtered(todos[i + 1..], "completed")
    ensures Filtered(Toggled(todos, i), "completed") ==
            Filtered(todos[..i], "completed") + (if todos[i].isCompleted then [] else [Toggled(todos, i)[i]]) +
            Filtered(todos[i + 1..], "completed")
    ensures |Filtered(Toggled(todos, i), "active")| ==
            |Filtered(todos, "active")| + (if todos[i].isCompleted then 1 else -1)
    ensures |Filtered(Toggled(todos, i), "completed")| ==
            |Filtered(todos, "completed")| + (if todos[i].isCompleted then -1 else 1)
  {
    var t := Toggled(todos, i);
    assert t[..i] == todos[..i] && t[i + 1..] == todos[i + 1..];
    FilteredAround(todos, i, "active");
    FilteredAround(t, i, "active");
    FilteredAround(todos, i, "completed");
    FilteredAround(t, i, "completed");
  }

  /** A filtered list is the filtered part before i, the item at i when it
      is kept, and the filtered part after i. */
  lemma FilteredAround(todos: seq<Todo>, i: nat, filter: string)
    requires i < |todos|
    ensures Filtered(todos, filter) ==
            Filtered(todos[..i], filter) + (if Keep(filter, todos[i]) then [todos[i]] else []) +
            Filtered(todos[i + 1..], filter)
  {
    assert todos == todos[..i] + ([todos[i]] + todos[i + 1..]);
    FilteredAppend(todos[..i], [todos[i]] + todos[i + 1..], filter);
    assert ([todos[i]] + todos[i + 1..])[1..] == todos[i + 1..];
  }

  /** Editing a text never changes which items a filter shows. */
  lemma {:induction false} EditedKeepsFilter(todos: seq<Todo>, i: nat, newText: string, filter: string)
    requires i < |todos|
    ensures |Filtered(Edited(todos, i, newText), filter)| == |Filtered(todos, filter)|
    ensures forall j :: 0 <= j < |todos| ==> Keep(filter, Edited(todos, i, newText)[j]) == Keep(filter, todos[j])
  {
    var e := Edited(todos, i, newText);
    if i == 0 {
      assert e[1..] == todos[1..];
    } else {
      EditedKeepsFilter(todos[1..], i - 1, newText, filter);
      assert e[1..] == Edited(todos[1..], i - 1, newText);
    }
  }

  // ---------------------------------------------------------------------
  // Worked examples
  // ---------------------------------------------------------------------

  /** Two items out of key order are swapped by the sort. */
  lemma TwoItemsSwap(a: Todo, b: Todo, criteria: string)
    requires SortKey(criteria, b) < SortKey(criteria, a)
    ensures View([a, b], "all", criteria) == [b, a]
  {
    var key := KeyOf(criteria);
    FilteredKeepsAll([a, b], "all");
    SortByStep(b, [], key);
    InsertStep(b, [], key);
    assert SortBy([b], key) == [b];
    SortByStep(a, [b], key);
    InsertStep(a, [b], key);
    InsertStep(a, [], key);
    assert [a] + [b] == [a, b] && [b][1..] == [];
  }

  /** "Buy milk" (due 2025-01-01, priority 3) added before "Call dentist"
      (due 2024-12-01, priority 1): both sorts show the dentist first. */
  lemma MilkAndDentist()
    ensures var milk := Todo("Buy milk", false, "2025-01-01", "3");
            var dentist := Todo("Call dentist", false, "2024-12-01", "1");
            View([milk, dentist], "all", "dueDate") == [dentist, milk] &&
            View([milk, dentist], "all", "priority") == [dentist, milk]
  {
    var milk := Todo("Buy milk", false, "2025-01-01", "3");
    var dentist := Todo("Call dentist", false, "2024-12-01", "1");
    MilkAndDentistKeys();
    TwoItemsSwap(milk, dentist, "dueDate");
    TwoItemsSwap(milk, dentist, "priority");
  }

  lemma MilkAndDentistKeys()
    ensures DateKey("2025-01-01") == 20250101 && DateKey("2024-12-01") == 20241201
    ensures PriorityKey("3") == 3 && PriorityKey("1") == 1
  {
    ParseDateDigits("2025-01-01");
    ParseDateDigits("2024-12-01");
    DecimalOfOne("3");
    DecimalOfOne("1");
  }

  lemma SortOneZeroOne(b: Todo, c: Todo, d: Todo, key: Todo -> int)
    requires key(b) == 1 && key(c) == 0 && key(d) == 1
    ensures SortBy([b, c, d], key) == [c, b, d]
  {
    SortByStep(d, [], key);
    InsertStep(d, [], key);
    assert [d] + [] == [d];
    SortByStep(c, [d], key);
    InsertStep(c, [d], key);
    assert [c] + [d] == [c, d];
    SortByStep(b, [c, d], key);
    InsertStep(b, [c, d], key);
    assert [b] + [c, d] == [b, c, d] && [c, d][1..] == [d];
    InsertStep(b, [d], key);
  }

  lemma InsertThreeLast(a: Todo, c: Todo, b: Todo, d: Todo, key: Todo -> int)
    requires key(a) == 3 && key(b) == 1 && key(c) == 0 && key(d) == 1
    ensures Insert(a, [c, b, d], key) == [c, b, d, a]
  {
    InsertStep(a, [c, b, d], key);
    assert [c, b, d][1..] == [b, d];
    InsertStep(a, [b, d], key);
    assert [b, d][1..] == [d];
    InsertStep(a, [d], key);
    assert [d][1..] == [];
    InsertStep(a, [], key);
  }

  lemma SortThreeOneZeroOne(a: Todo, b: Todo, c: Todo, d: Todo, key: Todo -> int)
    requires key(a) == 3 && key(b) == 1 && key(c) == 0 && key(d) == 1
    ensures SortBy([a, b, c, d], key) == [c, b, d, a]
  {
    SortByStep(a, [b, c, d], key);
    assert [a] + [b, c, d] == [a, b, c, d];
    SortOneZeroOne(b, c, d, key);
    InsertThreeLast(a, c, b, d, key);
  }

  /** Priorities "3", "1", "" and "1" in that order, sorted by priority:
      the item without a priority first (Number("") is 0), then the two "1"
      items in their original order, then "3". */
  lemma PrioritiesThreeOneEmptyOne(a: Todo, b: Todo, c: Todo, d: Todo)
    requires a.priority == "3" && b.priority == "1" && c.priority == "" && d.priority == "1"
    ensures View([a, b, c, d], "all", "priority") == [c, b, d, a]
  {
    DecimalOfOne("3");
    DecimalOfOne("1");
    FilteredKeepsAll([a, b, c, d], "all");
    SortThreeOneZeroOne(a, b, c, d, KeyOf("priority"));
  }
}
