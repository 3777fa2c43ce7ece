/** A to-do item, the draft-priority guard, the two sort keys and the three
    positional list edits of the TodoList component. */
module Todos {
  import opened JsText

  /** One item as the component stores it. The due date is the raw value of
      the date input ("" when none was picked) and the priority the raw value
      of the number input ("" when none was typed). */
  datatype Todo = Todo(text: string, isCompleted: bool, dueDate: string, priority: string)

  // ---------------------------------------------------------------------
  // Priority
  // ---------------------------------------------------------------------

  /** The guard of the priority input's change handler: the empty string,
      or a value whose Number() lies between 1 and 5 (NaN fails both tests). */
  predicate PriorityAccepted(value: string) {
    value == "" ||
    match NumberOf(value)
    case Some(n) => 1 <= n && n <= 5
    case None => false
  }

  /** The accepted non-empty values are exactly some '0's followed by one of
      the digits '1' to '5' ("3", "03", "003", ...). */
  lemma PriorityAcceptedForms(value: string)
    ensures PriorityAccepted(value) <==>
              value == "" ||
              ('1' <= value[|value| - 1] <= '5' &&
               forall i :: 0 <= i < |value| - 1 ==> value[i] == '0')
  {
    if value != "" {
      var p := value[..|value| - 1];
      if AllDigits(value) {
        assert AllDigits(p) by {
          forall i | 0 <= i < |p| ensures IsDigit(p[i]) { assert p[i] == value[i]; }
        }
        DecimalZeroIff(p);
        assert forall i :: 0 <= i < |p| ==> p[i] == value[i];
      } else if '1' <= value[|value| - 1] <= '5' && forall i :: 0 <= i < |value| - 1 ==> value[i] == '0' {
        assert AllDigits(value);
      }
    }
  }

  /** Number(priority), the key of the comparator `a.priority - b.priority`;
      NaN, which the priority guard never lets through, is read as 0. */
  function PriorityKey(p: string): nat {
    match NumberOf(p)
    case Some(n) => n
    case None => 0
  }

  /** An accepted priority has key 0 when it is empty and 1 to 5 otherwise,
      so items without a priority sort before every prioritised one. */
  lemma PriorityKeyOfAccepted(p: string)
    requires PriorityAccepted(p)
    ensures PriorityKey(p) <= 5
    ensures PriorityKey(p) == 0 <==> p == ""
  {
  }

  // ---------------------------------------------------------------------
  // Due date
  // ---------------------------------------------------------------------

  datatype Date = Date(year: nat, month: nat, day: nat)

  /** Calendar order of dates: year first, then month, then day. */
  predicate Before(a: Date, b: Date) {
    a.year < b.year ||
    (a.year == b.year && (a.month < b.month || (a.month == b.month && a.day < b.day)))
  }

  /** The date of a well-formed `YYYY-MM-DD` value, the format of a date
      input; None for everything else ("" included). */
  function ParseDate(s: string): (d: Option<Date>)
    ensures d.Some? ==> 1 <= d.value.month <= 12 && 1 <= d.value.day <= 31
  {
    if |s| == 10 && s[4] == '-' && s[7] == '-' &&
       AllDigits(s[..4]) && AllDigits(s[5..7]) && AllDigits(s[8..]) &&
       1 <= Decimal(s[5..7]) <= 12 && 1 <= Decimal(s[8..]) <= 31
    then Some(Date(Decimal(s[..4]), Decimal(s[5..7]), Decimal(s[8..])))
    else None
  }

  lemma DecimalOfOne(s: string)
    requires |s| == 1 && AllDigits(s)
    ensures Decimal(s) == DigitValue(s[0])
  {
    assert s[..0] == [];
  }

  lemma DecimalOfTwo(s: string)
    requires |s| == 2 && AllDigits(s)
    ensures Decimal(s) == 10 * DigitValue(s[0]) + DigitValue(s[1])
  {
    var p := s[..1];
    assert p[..0] == [] && p[0] == s[0];
    assert Decimal(p) == 10 * Decimal(p[..0]) + DigitValue(p[0]);
    assert Decimal(s) == 10 * Decimal(p) + DigitValue(s[1]);
  }

  lemma DecimalOfFour(s: string)
    requires |s| == 4 && AllDigits(s)
    ensures Decimal(s) == 1000 * DigitValue(s[0]) + 100 * DigitValue(s[1]) + 10 * DigitValue(s[2]) + DigitValue(s[3])
  {
    var p := s[..3];
    assert p[..2] == s[..2] && p[2] == s[2];
    DecimalOfTwo(s[..2]);
    assert Decimal(p) == 10 * Decimal(s[..2]) + DigitValue(s[2]);
    assert Decimal(s) == 10 * Decimal(p) + DigitValue(s[3]);
  }

  /** A `YYYY-MM-DD` value with a month from 01 to 12 and a day from 01 to 31
      parses to the year, month and day its digits spell. */
  lemma ParseDateDigits(s: string)
    requires |s| == 10 && s[4] == '-' && s[7] == '-'
    requires forall i :: 0 <= i < 10 && i != 4 && i != 7 ==> IsDigit(s[i])
    requires 1 <= 10 * DigitValue(s[5]) + DigitValue(s[6]) <= 12
    requires 1 <= 10 * DigitValue(s[8]) + DigitValue(s[9]) <= 31
    ensures ParseDate(s) == Some(Date(
              1000 * DigitValue(s[0]) + 100 * DigitValue(s[1]) + 10 * DigitValue(s[2]) + DigitValue(s[3]),
              10 * DigitValue(s[5]) + DigitValue(s[6]),
              10 * DigitValue(s[8]) + DigitValue(s[9])))
  {
    DecimalOfFour(s[..4]);
    DecimalOfTwo(s[5..7]);
    DecimalOfTwo(s[8..]);
  }

  /** The key of the comparator `new Date(a.dueDate) - new Date(b.dueDate)`
      for well-formed dates: a number that grows with the calendar date.
      An unparseable date (NaN in JavaScript) is read as 0. */
  function DateKey(s: string): nat {
    match ParseDate(s)
    case Some(d) => d.year * 10000 + d.month * 100 + d.day
    case None => 0
  }

  /** On well-formed dates the key order is the calendar order, and equal
      keys mean the same date. */
  lemma DateKeyOrder(a: string, b: string)
    requires ParseDate(a).Some? && ParseDate(b).Some?
    ensures DateKey(a) < DateKey(b) <==> Before(ParseDate(a).value, ParseDate(b).value)
    ensures DateKey(a) == DateKey(b) <==> ParseDate(a) == ParseDate(b)
  {
    var da, db := ParseDate(a).value, ParseDate(b).value;
    var ra, rb := da.month * 100 + da.day, db.month * 100 + db.day;
    assert 0 < ra < 10000 && 0 < rb < 10000;
    assert DateKey(a) == da.year * 10000 + ra;
    assert DateKey(b) == db.year * 10000 + rb;
    if da.year < db.year {
      assert da.year * 10000 + 10000 <= db.year * 10000;
    } else if db.year < da.year {
      assert db.year * 10000 + 10000 <= da.year * 10000;
    }
  }

  // ---------------------------------------------------------------------
  // Positional edits of the backing list
  // ---------------------------------------------------------------------

  /** The start position of JavaScript's `splice(index, 1)`: a negative
      index counts from the end, and the result is clamped to [0, len]. */
  function SpliceStart(len: nat, index: int): (start: nat)
    ensures start <= len
    ensures 0 <= index < len ==> start == index
    ensures 0 - len <= index < 0 ==> start == len + index
    ensures index >= len || index < 0 - len ==> start == (if index < 0 then 0 else len)
  {
    if index < 0 then (if len + index < 0 then 0 else len + index)
    else if index > len then len
    else index
  }

  /** The list after `newTodos.splice(index, 1)`. */
  function Removed(todos: seq<Todo>, index: int): seq<Todo> {
    var start := SpliceStart(|todos|, index);
    if start < |todos| then todos[..start] + todos[start + 1..] else todos
  }

  /** The item at i is gone, the items before it keep their positions and
      the items after it move up by one. */
  lemma RemovedAt(todos: seq<Todo>, i: int)
    requires 0 <= i < |todos|
    ensures |Removed(todos, i)| == |todos| - 1
    ensures forall j :: 0 <= j < i ==> Removed(todos, i)[j] == todos[j]
    ensures forall j :: i <= j < |todos| - 1 ==> Removed(todos, i)[j] == todos[j + 1]
    ensures multiset(Removed(todos, i)) + multiset{todos[i]} == multiset(todos)
  {
    assert todos == todos[..i] + [todos[i]] + todos[i + 1..];
  }

  /** An index past the end removes nothing. */
  lemma RemovedPastEnd(todos: seq<Todo>, i: int)
    requires i >= |todos|
    ensures Removed(todos, i) == todos
  {
  }

  /** The list after `newTodos[i].isCompleted = !newTodos[i].isCompleted`. */
  function Toggled(todos: seq<Todo>, i: nat): seq<Todo>
    requires i < |todos|
  {
    todos[i := todos[i].(isCompleted := !todos[i].isCompleted)]
  }

  /** Toggling changes the completion flag of item i and nothing else, and
      toggling the same item twice gives the original list back. */
  lemma ToggledTwice(todos: seq<Todo>, i: nat)
    requires i < |todos|
    ensures |Toggled(todos, i)| == |todos|
    ensures Toggled(todos, i)[i].isCompleted != todos[i].isCompleted
    ensures Toggled(todos, i)[i] == todos[i].(isCompleted := Toggled(todos, i)[i].isCompleted)
    ensures forall j :: 0 <= j < |todos| && j != i ==> Toggled(todos, i)[j] == todos[j]
    ensures Toggled(Toggled(todos, i), i) == todos
  {
  }

  /** The list after `newTodos[i].text = newText`. */
  function Edited(todos: seq<Todo>, i: nat, newText: string): seq<Todo>
    requires i < |todos|
  {
    todos[i := todos[i].(text := newText)]
  }

  /** Editing stores the new text verbatim (no trimming, the empty string
      included), leaves every other field and item alone, and a second edit
      of the same item overrides the first. */
  lemma EditedExactly(todos: seq<Todo>, i: nat, t: string, u: string)
    requires i < |todos|
    ensures |Edited(todos, i, t)| == |todos|
    ensures Edited(todos, i, t)[i].text == t
    ensures Edited(todos, i, t)[i].(text := todos[i].text) == todos[i]
    ensures forall j :: 0 <= j < |todos| && j != i ==> Edited(todos, i, t)[j] == todos[j]
    ensures Edited(Edited(todos, i, t), i, u) == Edited(todos, i, u)
    ensures Edited(todos, i, todos[i].text) == todos
  {
  }
}
