/**
  Properties that relate several calls of the todo state module: the state
  invariant is kept by every transition, toggling is its own inverse, the
  active and completed lists partition the todos, and the "items left"
  counter moves by exactly one on every non-blank add, and on every toggle
  of a present id when ids are distinct.
 */
module TodoProofs {
  import opened Text
  import opened TodoModel

  // ----- the state invariant is preserved -----

  lemma AddTodoPreservesValid(s: TodoState, text: string)
    requires Valid(s)
    ensures Valid(AddTodo(s, text))
  {
  }

  /** Adding text that needs no trimming appends it verbatim. */
  lemma AddCleanText(s: TodoState, text: string)
    requires Clean(text)
    ensures AddTodo(s, text)
         == s.(todos := s.todos + [Todo(s.nextId, text, false)], nextId := s.nextId + 1)
  {
  }

  lemma ToggleTodoPreservesValid(s: TodoState, id: int)
    requires Valid(s)
    ensures Valid(ToggleTodo(s, id))
  {
  }

  lemma SetFilterPreservesValid(s: TodoState, name: string)
    requires Valid(s)
    ensures Valid(SetFilter(s, name))
  {
  }

  // ----- toggling -----

  /** Toggling the same id twice gives back the original state, whether or
      not a todo carries that id. */
  lemma ToggleTodoTwice(s: TodoState, id: int)
    ensures ToggleTodo(ToggleTodo(s, id), id) == s
  {
  }

  /** Toggling an id no todo carries changes nothing. */
  lemma ToggleTodoAbsent(s: TodoState, id: int)
    requires !HasId(s.todos, id)
    ensures ToggleTodo(s, id) == s
  {
  }

  /** With distinct ids, toggling the id of the todo at `k` flips that one
      todo and no other. */
  lemma ToggleTodoFlipsOne(s: TodoState, k: int)
    requires UniqueIds(s.todos)
    requires 0 <= k < |s.todos|
    ensures ToggleTodo(s, s.todos[k].id).todos
         == s.todos[k := s.todos[k].(completed := !s.todos[k].completed)]
  {
  }

  /** Replacing one todo changes the open count by the difference of the two
      todos' weights. */
  lemma {:induction false} CountActiveUpdate(todos: seq<Todo>, k: int, t: Todo)
    requires 0 <= k < |todos|
    ensures CountActive(todos[k := t]) + ActiveWeight(todos[k])
         == CountActive(todos) + ActiveWeight(t)
    decreases |todos|
  {
    var u := todos[k := t];
    if k == 0 {
      assert u[1..] == todos[1..];
    } else {
      assert u[1..] == todos[1..][k - 1 := t];
      CountActiveUpdate(todos[1..], k - 1, t);
    }
  }

  /** With distinct ids, toggling an open todo lowers the "items left"
      counter by one and toggling a completed one raises it by one. */
  lemma ToggleTodoItemsLeft(s: TodoState, k: int)
    requires UniqueIds(s.todos)
    requires 0 <= k < |s.todos|
    ensures GetItemsLeftCount(ToggleTodo(s, s.todos[k].id))
         == if s.todos[k].completed then GetItemsLeftCount(s) + 1
            else GetItemsLeftCount(s) - 1
  {
    ToggleTodoFlipsOne(s, k);
    CountActiveUpdate(s.todos, k, s.todos[k].(completed := !s.todos[k].completed));
  }

  // ----- filtering -----

  /** Every todo is either active or completed: the two filtered lists hold
      between them exactly the todos of the state, so their lengths add up to
      the number of todos. */
  lemma VisiblePartition(s: TodoState)
    ensures multiset(GetVisibleTodos(s.(filter := Active)))
          + multiset(GetVisibleTodos(s.(filter := Completed)))
         == multiset(s.todos)
    ensures |GetVisibleTodos(s.(filter := Active))|
          + |GetVisibleTodos(s.(filter := Completed))|
         == |s.todos|
  {
    var a := Select(s.todos, false);
    var c := Select(s.todos, true);
    SelectMultiset(s.todos, false);
    SelectMultiset(s.todos, true);
    assert multiset(a) + multiset(c) == multiset(s.todos) by {
      forall t
        ensures (multiset(a) + multiset(c))[t] == multiset(s.todos)[t]
      {
      }
    }
    assert |multiset(a) + multiset(c)| == |multiset(s.todos)|;
  }

  /** Selecting from a list with one more todo at the end selects the same
      todos and then, if it matches, the new one. */
  lemma {:induction false} SelectAppend(todos: seq<Todo>, t: Todo, done: bool)
    ensures Select(todos + [t], done)
         == Select(todos, done) + (if t.completed == done then [t] else [])
    decreases |todos|
  {
    if todos == [] {
      assert [t][1..] == [];
    } else {
      assert (todos + [t])[1..] == todos[1..] + [t];
      SelectAppend(todos[1..], t, done);
    }
  }

  /** A non-blank add shows the new todo at the end of the list unless only
      completed todos are shown, and raises the "items left" counter by
      one. */
  lemma AddTodoVisible(s: TodoState, text: string)
    requires !AllWhitespace(text)
    ensures var r := AddTodo(s, text);
      && GetVisibleTodos(r)
         == GetVisibleTodos(s) + (if s.filter == Completed then [] else [r.todos[|s.todos|]])
      && GetItemsLeftCount(r) == GetItemsLeftCount(s) + 1
  {
    var r := AddTodo(s, text);
    var t := r.todos[|s.todos|];
    assert r.todos == s.todos + [t] by {
      assert r.todos == r.todos[..|s.todos|] + [t];
    }
    SelectAppend(s.todos, t, false);
    SelectAppend(s.todos, t, true);
  }

  /** Selecting twice with the same flag selects nothing new. */
  lemma {:induction false} SelectIdempotent(todos: seq<Todo>, done: bool)
    ensures Select(Select(todos, done), done) == Select(todos, done)
    decreases |todos|
  {
    if todos != [] {
      SelectIdempotent(todos[1..], done);
      if todos[0].completed == done {
        assert ([todos[0]] + Select(todos[1..], done))[1..] == Select(todos[1..], done);
      }
    }
  }

  /** The visible list, viewed again under the same filter, is unchanged. */
  lemma VisibleIdempotent(s: TodoState)
    ensures GetVisibleTodos(s.(todos := GetVisibleTodos(s))) == GetVisibleTodos(s)
  {
    match s.filter
    case All =>
    case Active => SelectIdempotent(s.todos, false);
    case Completed => SelectIdempotent(s.todos, true);
  }

  // ----- states reachable through the view's event handlers -----

  /** The three user actions the view forwards to the state module. */
  datatype Action = Submit(text: string) | Check(id: int) | PickFilter(name: string)

  /** What a handler does to the state. No handler removes, reorders or
      relabels a todo, and at most one todo is added. */
  function Step(s: TodoState, a: Action): (r: TodoState)
    ensures |s.todos| <= |r.todos| <= |s.todos| + 1
    ensures forall i :: 0 <= i < |s.todos| ==>
      r.todos[i].id == s.todos[i].id && r.todos[i].text == s.todos[i].text
  {
    match a
    case Submit(text) => AddTodo(s, text)
    case Check(id) => ToggleTodo(s, id)
    case PickFilter(name) => SetFilter(s, name)
  }

  /** Every handler keeps the state invariant. */
  lemma StepPreservesValid(s: TodoState, a: Action)
    requires Valid(s)
    ensures Valid(Step(s, a))
  {
    match a
    case Submit(text) => AddTodoPreservesValid(s, text);
    case Check(id) => ToggleTodoPreservesValid(s, id);
    case PickFilter(name) => SetFilterPreservesValid(s, name);
  }

  /** The state after the actions, in order, starting from the empty state. */
  function Replay(actions: seq<Action>): TodoState
    decreases |actions|
  {
    if actions == [] then CreateEmptyState()
    else Step(Replay(actions[..|actions| - 1]), actions[|actions| - 1])
  }

  /** Ids are handed out as 1, 2, 3, ... in list order and `nextId` is one
      past the last of them. */
  predicate Dense(s: TodoState) {
    && s.nextId == |s.todos| + 1
    && forall i :: 0 <= i < |s.todos| ==> s.todos[i].id == i + 1
  }

  lemma DenseIsValid(s: TodoState)
    requires Dense(s)
    ensures Valid(s)
  {
  }

  lemma StepPreservesDense(s: TodoState, a: Action)
    requires Dense(s)
    ensures Dense(Step(s, a))
  {
    match a
    case Submit(text) =>
      var r := AddTodo(s, text);
      if !AllWhitespace(text) {
        forall i | 0 <= i < |r.todos|
          ensures r.todos[i].id == i + 1
        {
          if i < |s.todos| {
            assert r.todos[i] == r.todos[..|s.todos|][i];
          }
        }
      }
    case Check(id) =>
    case PickFilter(name) =>
  }

  /** Every state the view can hold has dense ids and so satisfies the state
      invariant. */
  lemma {:induction false} ReplayValid(actions: seq<Action>)
    ensures Dense(Replay(actions))
    ensures Valid(Replay(actions))
    decreases |actions|
  {
    if actions != [] {
      ReplayValid(actions[..|actions| - 1]);
      StepPreservesDense(Replay(actions[..|actions| - 1]), actions[|actions| - 1]);
    }
    DenseIsValid(Replay(actions));
  }
}
