/**
  The pure todo state module: an immutable state value holding the todo
  items, the next id to hand out and the active filter, with the
  transitions that build a new state from an old one and the queries the
  view reads. Every edge case (blank text, unknown id, unknown filter name)
  is a silent no-op.
 */
module TodoModel {
  import opened Text

  datatype Option<T> = None | Some(value: T)

  /** Which todos the view shows. */
  datatype Filter = All | Active | Completed

  datatype Todo = Todo(id: int, text: string, completed: bool)

  datatype TodoState = TodoState(todos: seq<Todo>, nextId: int, filter: Filter)

  /** The string literal each filter is written as. */
  function FilterName(f: Filter): string {
    match f
    case All => "all"
    case Active => "active"
    case Completed => "completed"
  }

  /** Recognises exactly the three filter names. */
  function ParseFilter(name: string): (r: Option<Filter>)
    ensures r.Some? ==> FilterName(r.value) == name
    ensures r.None? <==> name !in {"all", "active", "completed"}
  {
    if name == "all" then Some(All)
    else if name == "active" then Some(Active)
    else if name == "completed" then Some(Completed)
    else None
  }

  /** Parsing a filter's name gives the filter back. */
  lemma ParseFilterName(f: Filter)
    ensures ParseFilter(FilterName(f)) == Some(f)
  {
  }

  // ----- the state invariant -----

  predicate UniqueIds(todos: seq<Todo>) {
    forall i, j :: 0 <= i < j < |todos| ==> todos[i].id != todos[j].id
  }

  /** Every id lies in `[1, bound)`. */
  predicate IdsBelow(todos: seq<Todo>, bound: int) {
    forall i :: 0 <= i < |todos| ==> 1 <= todos[i].id < bound
  }

  /** Ids are positive and pairwise distinct, every id is below `nextId`,
      and `nextId` is 1 while there are no todos. */
  predicate Valid(s: TodoState) {
    && 1 <= s.nextId
    && UniqueIds(s.todos)
    && IdsBelow(s.todos, s.nextId)
    && (s.todos == [] ==> s.nextId == 1)
  }

  predicate HasId(todos: seq<Todo>, id: int) {
    exists i :: 0 <= i < |todos| && todos[i].id == id
  }

  // ----- transitions -----

  /** The state the application starts in. */
  function CreateEmptyState(): (s: TodoState)
    ensures |s.todos| == 0 && s.nextId == 1 && s.filter == All
    ensures Valid(s)
  {
    TodoState([], 1, All)
  }

  /** Adds the trimmed `text` as a new open todo carrying the next id; blank
      text leaves the state as it is. */
  function AddTodo(s: TodoState, text: string): (r: TodoState)
    ensures AllWhitespace(text) <==> r == s
    ensures !AllWhitespace(text) ==>
      && |r.todos| == |s.todos| + 1
      && r.todos[..|s.todos|] == s.todos
      && r.todos[|s.todos|].id == s.nextId
      && r.todos[|s.todos|].text == Trim(text)
      && !r.todos[|s.todos|].completed
      && r.nextId == s.nextId + 1
      && r.filter == s.filter
  {
    var trimmed := Trim(text);
    if trimmed == [] then s
    else
      var r := s.(nextId := s.nextId + 1, todos := s.todos + [Todo(s.nextId, trimmed, false)]);
      assert r.todos[..|s.todos|] == s.todos;
      r
  }

  /** `t` with its completion flag flipped when it carries `id`. */
  function ToggleIfId(t: Todo, id: int): (r: Todo)
    ensures r.id == t.id && r.text == t.text
    ensures r.completed != t.completed <==> t.id == id
  {
    if t.id == id then t.(completed := !t.completed) else t
  }

  /** Maps `ToggleIfId` over the todos, keeping their order. */
  function ToggleEach(todos: seq<Todo>, id: int): (r: seq<Todo>)
    ensures |r| == |todos|
    ensures forall i :: 0 <= i < |todos| ==>
      && r[i].id == todos[i].id
      && r[i].text == todos[i].text
      && (r[i].completed != todos[i].completed <==> todos[i].id == id)
    decreases |todos|
  {
    if todos == [] then []
    else [ToggleIfId(todos[0], id)] + ToggleEach(todos[1..], id)
  }

  /** Flips `completed` on the todos whose id is `id`; nothing else changes. */
  function ToggleTodo(s: TodoState, id: int): (r: TodoState)
    ensures r.nextId == s.nextId && r.filter == s.filter
    ensures |r.todos| == |s.todos|
    ensures forall i :: 0 <= i < |s.todos| ==>
      && r.todos[i].id == s.todos[i].id
      && r.todos[i].text == s.todos[i].text
      && (r.todos[i].completed != s.todos[i].completed <==> s.todos[i].id == id)
  {
    s.(todos := ToggleEach(s.todos, id))
  }

  /** Switches to the filter called `name`; an unknown name is ignored. */
  function SetFilter(s: TodoState, name: string): (r: TodoState)
    ensures r.todos == s.todos && r.nextId == s.nextId
    ensures name in {"all", "active", "completed"} ==> FilterName(r.filter) == name
    ensures name !in {"all", "active", "completed"} ==> r == s
  {
    match ParseFilter(name)
    case Some(f) => s.(filter := f)
    case None => s
  }

  // ----- queries -----

  /** `a` can be obtained from `b` by deleting elements: `a` is an
      order-preserving subsequence of `b`. */
  ghost predicate IsSubsequence<T>(a: seq<T>, b: seq<T>)
    decreases |b|
  {
    if a == [] then true
    else if b == [] then false
    else if a[0] == b[0] then IsSubsequence(a[1..], b[1..])
    else IsSubsequence(a, b[1..])
  }

  /** The todos whose completion flag is `done`, in their original order. */
  function Select(todos: seq<Todo>, done: bool): (r: seq<Todo>)
    ensures |r| <= |todos|
    ensures IsSubsequence(r, todos)
    ensures forall i :: 0 <= i < |r| ==> r[i].completed == done
    ensures forall i :: 0 <= i < |todos| && todos[i].completed == done ==> todos[i] in r
    decreases |todos|
  {
    if todos == [] then []
    else
      var rest := Select(todos[1..], done);
      assert forall i :: 1 <= i < |todos| ==> todos[i] == todos[1..][i - 1];
      if todos[0].completed == done then
        assert ([todos[0]] + rest)[1..] == rest;
        [todos[0]] + rest
      else
        assert rest == [] || rest[0] != todos[0];
        rest
  }

  /** `Select` keeps every occurrence of a matching todo and no other: its
      result holds, with multiplicity, exactly the matching todos. */
  lemma {:induction false} SelectMultiset(todos: seq<Todo>, done: bool)
    ensures forall t :: multiset(Select(todos, done))[t]
                     == if t.completed == done then multiset(todos)[t] else 0
    decreases |todos|
  {
    if todos != [] {
      SelectMultiset(todos[1..], done);
      assert todos == [todos[0]] + todos[1..];
    }
  }

  /** The todos the view lists under the current filter. */
  function GetVisibleTodos(s: TodoState): (r: seq<Todo>)
    ensures s.filter == All ==> r == s.todos
    ensures s.filter != All ==> IsSubsequence(r, s.todos)
    ensures s.filter != All ==> forall i :: 0 <= i < |r| ==> r[i].completed == (s.filter == Completed)
    ensures s.filter != All ==> forall i :: 0 <= i < |s.todos| && s.todos[i].completed == (s.filter == Completed) ==> s.todos[i] in r
  {
    match s.filter
    case All => s.todos
    case Active => Select(s.todos, false)
    case Completed => Select(s.todos, true)
  }

  /** 1 for an open todo, 0 for a completed one. */
  function ActiveWeight(t: Todo): (n: nat)
    ensures n == 1 <==> !t.completed
    ensures n <= 1
  {
    if t.completed then 0 else 1
  }

  /** Under the active or the completed filter, the visible list holds every
      occurrence of a matching todo and no other, with multiplicity. */
  lemma VisibleMultiset(s: TodoState)
    requires s.filter != All
    ensures forall t :: multiset(GetVisibleTodos(s))[t]
                     == if t.completed == (s.filter == Completed) then multiset(s.todos)[t] else 0
  {
    SelectMultiset(s.todos, s.filter == Completed);
  }

  /** Number of todos that are not completed. */
  function CountActive(todos: seq<Todo>): (n: nat)
    ensures n <= |todos|
    ensures n == 0 <==> forall i :: 0 <= i < |todos| ==> todos[i].completed
    decreases |todos|
  {
    if todos == [] then 0
    else
      assert forall i :: 1 <= i < |todos| ==> todos[i] == todos[1..][i - 1];
      ActiveWeight(todos[0]) + CountActive(todos[1..])
  }

  /** Counting the open todos gives the length of the open-todo selection. */
  lemma {:induction false} CountActiveIsSelectLength(todos: seq<Todo>)
    ensures CountActive(todos) == |Select(todos, false)|
    decreases |todos|
  {
    if todos != [] {
      CountActiveIsSelectLength(todos[1..]);
    }
  }

  /** The "items left" counter: the length of the active-filter list. */
  function GetItemsLeftCount(s: TodoState): (n: nat)
    ensures n <= |s.todos|
    ensures n == |GetVisibleTodos(s.(filter := Active))|
  {
    CountActiveIsSelectLength(s.todos);
    CountActive(s.todos)
  }
}
