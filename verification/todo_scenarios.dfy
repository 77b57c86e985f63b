/**
  The repository's unit-test fixtures and browser scenarios, restated as
  facts about the model.
 */
module TodoScenarios {
  import opened Text
  import opened TodoModel
  import opened TodoProofs

  /** The `emptyState` fixture. */
  function EmptyFixture(): (s: TodoState)
    ensures Valid(s) && s.todos == []
  {
    TodoState([], 1, All)
  }

  /** The `oneActiveOneCompletedState` fixture. */
  function OneActiveOneCompletedFixture(): (s: TodoState)
    ensures Valid(s)
    ensures CountActive(s.todos) == 1
  {
    TodoState([Todo(1, "Active task", false), Todo(2, "Completed task", true)], 3, All)
  }

  /** The `filteredActiveState` fixture: its ids are distinct, but `nextId`
      is 3 although a todo already carries id 3. */
  function FilteredActiveFixture(): (s: TodoState)
    ensures UniqueIds(s.todos) && !Valid(s)
  {
    var s := TodoState([Todo(1, "Active 1", false), Todo(2, "Completed 1", true), Todo(3, "Active 2", false)], 3, Active);
    assert !(s.todos[2].id < s.nextId);
    s
  }

  function Texts(todos: seq<Todo>): (r: seq<string>)
    ensures |r| == |todos|
    ensures forall i :: 0 <= i < |todos| ==> r[i] == todos[i].text
    decreases |todos|
  {
    if todos == [] then [] else [todos[0].text] + Texts(todos[1..])
  }

  lemma CreateEmptyStateIsFixture()
    ensures CreateEmptyState() == EmptyFixture()
  {
  }

  lemma AddToEmptyScenario()
    ensures var r := AddTodo(CreateEmptyState(), "Learn TypeScript testing");
      |r.todos| == 1 && r.nextId == 2
  {
  }

  lemma ToggleScenario()
    ensures ToggleTodo(EmptyFixture().(todos := [Todo(1, "Test", false)], nextId := 2), 1).todos[0].completed
  {
  }

  lemma FilteredActiveScenario()
    ensures Texts(GetVisibleTodos(FilteredActiveFixture())) == ["Active 1", "Active 2"]
    ensures !Valid(FilteredActiveFixture())
  {
  }

  lemma ItemsLeftScenario()
    ensures GetItemsLeftCount(OneActiveOneCompletedFixture()) == 1
  {
  }

  /** Adding "Buy milk" to the empty state lists one open todo with id 1 and
      leaves one item to do. */
  lemma BuyMilkScenario()
    ensures var r := AddTodo(CreateEmptyState(), "Buy milk");
      && r.todos == [Todo(1, "Buy milk", false)]
      && r.nextId == 2
      && GetItemsLeftCount(r) == 1
  {
    var t := "Buy milk";
    AddCleanText(CreateEmptyState(), t);
  }

  /** Adding two todos and checking the first lists both, the first
      completed and the second open; it leaves one item to do, and the
      active list holds only the second. */
  lemma CompleteFirstOfTwo(t1: string, t2: string)
    requires Clean(t1) && Clean(t2)
    ensures var r := ToggleTodo(AddTodo(AddTodo(CreateEmptyState(), t1), t2), 1);
      && GetVisibleTodos(r) == [Todo(1, t1, true), Todo(2, t2, false)]
      && GetItemsLeftCount(r) == 1
      && GetVisibleTodos(r.(filter := Active)) == [Todo(2, t2, false)]
  {
    var s0 := CreateEmptyState();
    AddCleanText(s0, t1);
    var s1 := AddTodo(s0, t1);
    AddCleanText(s1, t2);
    var s2 := AddTodo(s1, t2);
    assert s2.todos == [Todo(1, t1, false), Todo(2, t2, false)];
    var r := ToggleTodo(s2, 1);
    assert r.todos == [Todo(1, t1, true), Todo(2, t2, false)];
    assert r.todos[1..] == [Todo(2, t2, false)];
    assert r.todos[1..][1..] == [];
  }

  /** The browser scenario: "Task 1" and "Task 2", the first checked. */
  lemma CompleteScenario()
    ensures var r := ToggleTodo(AddTodo(AddTodo(CreateEmptyState(), "Task 1"), "Task 2"), 1);
      && GetVisibleTodos(r) == [Todo(1, "Task 1", true), Todo(2, "Task 2", false)]
      && GetItemsLeftCount(r) == 1
      && GetVisibleTodos(r.(filter := Active)) == [Todo(2, "Task 2", false)]
  {
    CompleteFirstOfTwo("Task 1", "Task 2");
  }

  /** The two filtered views of a state. */
  lemma FilterViews(s: TodoState, t1: string, t2: string)
    requires s.todos == [Todo(1, t1, false), Todo(2, t2, true)]
    ensures var r := SetFilter(s, "active");
      && Texts(GetVisibleTodos(r)) == [t1]
      && Texts(GetVisibleTodos(SetFilter(r, "completed"))) == [t2]
  {
    assert s.todos[1..] == [Todo(2, t2, true)];
    assert s.todos[1..][1..] == [];
    assert Select(s.todos, false) == [Todo(1, t1, false)];
    assert Select(s.todos, true) == [Todo(2, t2, true)];
    var r := SetFilter(s, "active");
    assert r == s.(filter := Active);
    assert SetFilter(r, "completed") == s.(filter := Completed);
  }

  /** Adding two todos, checking the second and picking the active filter
      shows only the first; picking the completed filter shows only the
      second. */
  lemma FilterTwo(t1: string, t2: string)
    requires Clean(t1) && Clean(t2)
    ensures var r := SetFilter(ToggleTodo(AddTodo(AddTodo(CreateEmptyState(), t1), t2), 2), "active");
      && Texts(GetVisibleTodos(r)) == [t1]
      && Texts(GetVisibleTodos(SetFilter(r, "completed"))) == [t2]
  {
    var s0 := CreateEmptyState();
    AddCleanText(s0, t1);
    var s1 := AddTodo(s0, t1);
    AddCleanText(s1, t2);
    var s2 := AddTodo(s1, t2);
    assert s2.todos == [Todo(1, t1, false), Todo(2, t2, false)];
    var s3 := ToggleTodo(s2, 2);
    assert s3.todos == [Todo(1, t1, false), Todo(2, t2, true)];
    FilterViews(s3, t1, t2);
  }

  /** The browser scenario: "Active" and "Done", the second checked. */
  lemma FilterScenario()
    ensures var r := SetFilter(ToggleTodo(AddTodo(AddTodo(CreateEmptyState(), "Active"), "Done"), 2), "active");
      && Texts(GetVisibleTodos(r)) == ["Active"]
      && Texts(GetVisibleTodos(SetFilter(r, "completed"))) == ["Done"]
  {
    FilterTwo("Active", "Done");
  }
}
