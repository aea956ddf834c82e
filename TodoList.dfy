/**
 * The list view: a filter selection combined with the loaded to-do list gives
 * the rendered subset, and the footer counts the items left over the whole list.
 */
module TodoList {
  import opened Types

  /** The values the three filter links write into the `filterBy` slot. */
  datatype Filter = All | Active | Completed

  /** `s` can be obtained from `t` by deleting elements, keeping the order of the rest. */
  ghost predicate IsSubsequence(s: seq<Todo>, t: seq<Todo>)
    decreases |t|
  {
    if s == [] then true
    else if t == [] then false
    else (s[0] == t[0] && IsSubsequence(s[1..], t[1..])) || IsSubsequence(s, t[1..])
  }

  /** The todos whose `completed` flag equals `done`, in their original order. */
  function Keep(todos: seq<Todo>, done: bool): (r: seq<Todo>)
    ensures |r| <= |todos|
    ensures forall t :: t in r <==> t in todos && t.completed == done
  {
    if todos == [] then []
    else if todos[0].completed == done then [todos[0]] + Keep(todos[1..], done)
    else Keep(todos[1..], done)
  }

  /** Whether a todo passes a filter: every todo for "all", otherwise the ones with the matching flag. */
  predicate Shows(filter: Filter, t: Todo)
  {
    match filter
    case All => true
    case Active => !t.completed
    case Completed => t.completed
  }

  /** The rendered subset for a filter selection: exactly the todos that pass it. */
  function Visible(todos: seq<Todo>, filter: Filter): (r: seq<Todo>)
    ensures |r| <= |todos|
    ensures forall t :: t in r <==> t in todos && Shows(filter, t)
  {
    match filter
    case All => todos
    case Active => Keep(todos, false)
    case Completed => Keep(todos, true)
  }

  /** The footer's "items left": the incomplete todos of the whole list. */
  function ItemsLeft(todos: seq<Todo>): (n: nat)
    ensures n <= |todos|
    ensures n == 0 <==> forall t :: t in todos ==> t.completed
  {
    var active := Keep(todos, false);
    assert active != [] ==> active[0] in active;
    |active|
  }

  lemma {:induction false} IsSubsequenceReflexive(t: seq<Todo>)
    ensures IsSubsequence(t, t)
    decreases |t|
  {
    if t != [] {
      IsSubsequenceReflexive(t[1..]);
    }
  }

  /** Filtering never reorders or invents todos. */
  lemma {:induction false} KeepIsSubsequence(todos: seq<Todo>, done: bool)
    ensures IsSubsequence(Keep(todos, done), todos)
    decreases |todos|
  {
    if todos != [] {
      KeepIsSubsequence(todos[1..], done);
      if todos[0].completed == done {
        assert ([todos[0]] + Keep(todos[1..], done))[1..] == Keep(todos[1..], done);
      }
    }
  }

  /** No subsequence made of matching todos is longer than `Keep`. */
  lemma {:induction false} KeepIsLongest(r: seq<Todo>, todos: seq<Todo>, done: bool)
    requires IsSubsequence(r, todos)
    requires forall i :: 0 <= i < |r| ==> r[i].completed == done
    ensures |r| <= |Keep(todos, done)|
    decreases |todos|
  {
    if r != [] && todos != [] {
      if r[0] == todos[0] && IsSubsequence(r[1..], todos[1..]) {
        KeepIsLongest(r[1..], todos[1..], done);
      } else {
        KeepIsLongest(r, todos[1..], done);
      }
    }
  }

  /**
   * `Keep` is exactly the todos with the given flag in their original order:
   * the only subsequence of matching todos that is as long as it is itself.
   */
  lemma {:induction false} KeepIsUnique(r: seq<Todo>, todos: seq<Todo>, done: bool)
    requires IsSubsequence(r, todos)
    requires forall i :: 0 <= i < |r| ==> r[i].completed == done
    requires |r| >= |Keep(todos, done)|
    ensures r == Keep(todos, done)
    decreases |todos|
  {
    if r != [] && todos != [] {
      if r[0] == todos[0] && IsSubsequence(r[1..], todos[1..]) {
        KeepIsUnique(r[1..], todos[1..], done);
      } else {
        KeepIsLongest(r, todos[1..], done);
        if todos[0].completed == done {
          // r skips the first todo, so it is too short to match Keep
          assert false;
        } else {
          KeepIsUnique(r, todos[1..], done);
        }
      }
    }
  }

  /** The active and the completed views split the list: every todo lands in exactly one. */
  lemma {:induction false} KeepPartition(todos: seq<Todo>)
    ensures |Keep(todos, false)| + |Keep(todos, true)| == |todos|
    ensures multiset(Keep(todos, false)) + multiset(Keep(todos, true)) == multiset(todos)
    decreases |todos|
  {
    if todos != [] {
      KeepPartition(todos[1..]);
      assert todos == [todos[0]] + todos[1..];
    }
  }

  /** Under every filter the rendered subset is a subsequence of the loaded list. */
  lemma VisibleIsSubsequence(todos: seq<Todo>, filter: Filter)
    ensures IsSubsequence(Visible(todos, filter), todos)
    ensures filter == All ==> Visible(todos, filter) == todos
    ensures filter != All ==> forall t :: t in Visible(todos, filter) <==>
      t in todos && t.completed == (filter == Completed)
  {
    match filter
    case All => IsSubsequenceReflexive(todos);
    case Active => KeepIsSubsequence(todos, false);
    case Completed => KeepIsSubsequence(todos, true);
  }

  /** The items-left count is what the active view would show and what the completed view leaves out. */
  lemma ItemsLeftMatchesViews(todos: seq<Todo>)
    ensures ItemsLeft(todos) == |Visible(todos, Active)|
    ensures ItemsLeft(todos) == |todos| - |Visible(todos, Completed)|
  {
    KeepPartition(todos);
  }

  /**
   * The list component: the list it was last given by its parent and the
   * selected filter, which only the filter links change.
   */
  class TodoListView {
    var todosData: seq<Todo>
    var filterBy: Filter

    /** Mounting starts with every todo shown and the "all" link selected. */
    constructor (todos: seq<Todo>)
      ensures todosData == todos && filterBy == All
      ensures VisibleTodos() == todos
    {
      todosData := todos;
      filterBy := All;
    }

    /**
     * The subset the list section renders for the current selection: an
     * order-preserving subsequence of the list made of the todos that pass the filter.
     */
    function VisibleTodos(): (r: seq<Todo>)
      reads this
      ensures IsSubsequence(r, todosData)
      ensures forall t :: t in r <==> t in todosData && Shows(filterBy, t)
    {
      VisibleIsSubsequence(todosData, filterBy);
      Visible(todosData, filterBy)
    }

    /** The counter in the footer: it depends on the whole list only, never on the filter. */
    function ItemsLeftCount(): (n: nat)
      reads this
      ensures n <= |todosData|
      ensures n == 0 <==> forall t :: t in todosData ==> t.completed
      ensures n == |Visible(todosData, Active)|
    {
      ItemsLeftMatchesViews(todosData);
      ItemsLeft(todosData)
    }

    /** Whether the link for `link` carries the `selected` class: the selected link is the one whose subset is rendered. */
    predicate IsSelected(link: Filter): (selected: bool)
      reads this
      ensures selected ==> VisibleTodos() == Visible(todosData, link)
    {
      filterBy == link
    }

    /** Exactly one of the three links is marked selected. */
    lemma ExactlyOneSelected()
      ensures IsSelected(filterBy)
      ensures forall link :: IsSelected(link) ==> link == filterBy
      ensures IsSelected(All) || IsSelected(Active) || IsSelected(Completed)
    {
    }

    /** Clicking a filter link: only the selection changes, the list and the count do not. */
    method SetFilterBy(link: Filter)
      modifies this`filterBy
      ensures filterBy == link && IsSelected(link)
      ensures todosData == old(todosData)
      ensures VisibleTodos() == Visible(todosData, link)
      ensures ItemsLeftCount() == old(ItemsLeftCount())
    {
      filterBy := link;
    }

    /**
     * The parent re-rendering with a new list: the selection is kept and the
     * rendered subset and the counter follow the new list.
     */
    method ReceiveTodos(todos: seq<Todo>)
      modifies this`todosData
      ensures todosData == todos && filterBy == old(filterBy)
      ensures VisibleTodos() == Visible(todos, old(filterBy))
      ensures ItemsLeftCount() == ItemsLeft(todos)
    {
      todosData := todos;
    }
  }
}
