# Todo state module, modelled in Dafny

This project models the pure state module of a small browser todo-list
application (`src/todoModel.ts`). The state is an immutable value. It holds
three things:

- the todos, in insertion order;
- the next id to hand out;
- the active filter (`all`, `active` or `completed`).

Every operation builds a new state from the old one:

- `createEmptyState` yields the starting state;
- `addTodo` appends a trimmed, open todo;
- `toggleTodo` flips the completion flag of the todos that carry an id;
- `setFilter` switches the filter;
- `getVisibleTodos` and `getItemsLeftCount` are the two queries the view reads.

Blank text, an unknown id and an unknown filter name are all silent no-ops.

Files:

- `text.dfy` (module `Text`): `String.prototype.trim` over the exact
  ECMAScript WhiteSpace and LineTerminator code points. `Trim` is
  characterised as the unique slice that is bounded by white space and does
  not start or end with it.
- `todo_model.dfy` (module `TodoModel`): the `Filter`, `Todo` and
  `TodoState` datatypes, the operations, and the state invariant `Valid`.
  `Valid` says ids are positive, pairwise distinct and below `nextId`, and
  `nextId` is 1 while the list is empty.
- `todo_proofs.dfy` (module `TodoProofs`) proves these facts:
  - every transition preserves `Valid`;
  - toggling twice is the identity;
  - toggling an absent id is a no-op;
  - with distinct ids, toggling a present id flips exactly one todo;
  - the active and completed lists partition the todos;
  - the "items left" counter moves by exactly one on every non-blank add,
    and on every toggle of a present id when ids are distinct;
  - every state reachable through the view's three event handlers has ids
    1, 2, 3, … in order.
- `todo_scenarios.dfy` (module `TodoScenarios`): the three fixtures the unit
  tests import, as functions, and the unit and browser scenarios as lemmas
  about the model.

The source computes `getItemsLeftCount` as
`todos.filter(t => !t.completed).length`. The model counts open todos
directly (`CountActive`). `CountActiveIsSelectLength` proves the count
equals the length of the active-filter list.

Three facts about the code that its comments do not spell out:

- The doc comment of `toggleTodo` (`src/todoModel.ts:80-81`) speaks of
  "the Todo" in the singular, but the code maps over the list and flips
  every todo whose id matches. With distinct ids and an id that some todo
  carries this is one todo (`ToggleTodoFlipsOne`). Without distinct ids it
  can be several; for an absent id it is none (`ToggleTodoAbsent`).
- Toggling twice restores the state for every id, including ids that no
  todo carries (`ToggleTodoTwice`).
- The queries do not assume that `nextId` exceeds every id. The test
  fixture `filteredActiveState` breaks that: its `nextId` is 3 while a todo
  has id 3 (`FilteredActiveFixture` and `FilteredActiveScenario` prove the
  fixture is not `Valid`).

## Model

| member | source | states |
|---|---|---|
| Text.TrimStart | src/todoModel.ts:59 | the result is a suffix of the input, everything dropped is white space, and it does not start with white space |
| Text.TrimEnd | src/todoModel.ts:59 | the result is a prefix of the input, everything dropped is white space, and it does not end with white space |
| Text.Trim | src/todoModel.ts:59 | the result is a slice of the input with only white space outside it and none at either end; it is empty exactly when the input is all white space |
| Text.TrimmedFromEmpty | src/todoModel.ts:59-61 | a trimmed slice is empty exactly when the whole text is white space, so `!trimmed` is an all-white-space test |
| Text.TrimmedFromBounds | src/todoModel.ts:59 | a non-empty trimmed slice runs from the first to the last non-white-space code point |
| Text.TrimmedFromUnique | src/todoModel.ts:59 | at most one string is a trim of a given text |
| Text.TrimCharacterised | src/todoModel.ts:59 | any slice bounded by white space and free of it at both ends is what `trim` returns |
| Text.TrimClean | src/todoModel.ts:59 | text that neither starts nor ends with white space trims to itself |
| Text.TrimIdempotent | src/todoModel.ts:59 | trimming an already trimmed text changes nothing |
| TodoModel.ParseFilter | src/todoModel.ts:100-101 | exactly the three strings "all", "active", "completed" are accepted, each as the filter of that name |
| TodoModel.ParseFilterName | src/todoModel.ts:5 | each filter's name is accepted back as that same filter |
| TodoModel.CreateEmptyState | src/todoModel.ts:43-49 | the starting state has no todos, next id 1, filter all, and satisfies the state invariant |
| TodoModel.AddTodo | src/todoModel.ts:58-74 | the state is unchanged exactly when the text is all white space; otherwise the old todos stay as a prefix, one open todo with the old next id and the trimmed text is appended, next id grows by one and the filter is kept |
| TodoModel.ToggleIfId | src/todoModel.ts:87 | id and text are kept, and the completion flag changes exactly when the todo carries the given id |
| TodoModel.ToggleEach | src/todoModel.ts:86-88 | same length and order; each todo keeps id and text, and its flag changes exactly when its id matches |
| TodoModel.ToggleTodo | src/todoModel.ts:83-90 | next id, filter, length, order, ids and texts are unchanged; a todo's flag changes exactly when its id is the given one |
| TodoModel.SetFilter | src/todoModel.ts:100-105 | todos and next id are kept; a valid name becomes the filter; any other string leaves the state unchanged |
| TodoModel.Select | src/todoModel.ts:114-115 | the result is an order-preserving subsequence of the todos; every todo in it has the requested flag and every todo with that flag is in it |
| TodoModel.SelectMultiset | src/todoModel.ts:114-115 | the selection holds every occurrence of a matching todo and no other, counted with multiplicity |
| TodoModel.GetVisibleTodos | src/todoModel.ts:113-117 | under "all" the todos themselves; otherwise an order-preserving subsequence whose todos all match the filter and which contains every matching todo (multiplicity is stated by VisibleMultiset) |
| TodoModel.VisibleMultiset | src/todoModel.ts:114-115 | under the active or completed filter, the visible list holds every occurrence of a matching todo and no other, counted with multiplicity |
| TodoModel.CountActive | src/todoModel.ts:127 | the open count is at most the number of todos and is zero exactly when every todo is completed |
| TodoModel.CountActiveIsSelectLength | src/todoModel.ts:127 | counting the open todos gives the length of the list of not-completed todos |
| TodoModel.GetItemsLeftCount | src/todoModel.ts:126-128 | the counter equals the length of the list shown under the active filter and is at most the number of todos |
| TodoProofs.AddTodoPreservesValid | src/todoModel.ts:63-73 | adding a todo keeps ids positive, distinct and below next id, and next id 1 only for an empty list |
| TodoProofs.AddCleanText | src/todoModel.ts:58-73 | text needing no trimming is appended verbatim with the old next id |
| TodoProofs.ToggleTodoPreservesValid | src/todoModel.ts:83-90 | toggling keeps the state invariant |
| TodoProofs.SetFilterPreservesValid | src/todoModel.ts:100-105 | switching the filter keeps the state invariant |
| TodoProofs.ToggleTodoTwice | src/todoModel.ts:86-88 | toggling the same id twice gives back the original state, for any id |
| TodoProofs.ToggleTodoAbsent | src/todoModel.ts:86-88 | toggling an id no todo carries returns the state unchanged |
| TodoProofs.ToggleTodoFlipsOne | src/todoModel.ts:83-90 | with distinct ids, toggling the id of one todo flips that todo and leaves every other as it was |
| TodoProofs.CountActiveUpdate | src/todoModel.ts:127 | replacing one todo changes the open count by the difference of the old and new todo's openness |
| TodoProofs.ToggleTodoItemsLeft | src/todoModel.ts:126-128 | with distinct ids, toggling an open todo lowers the items-left count by one and toggling a completed one raises it by one |
| TodoProofs.VisiblePartition | src/todoModel.ts:113-117 | the active and completed lists together hold exactly the todos (as multisets), so their lengths add up to the number of todos |
| TodoProofs.SelectAppend | src/todoModel.ts:114-115 | filtering a list with one more todo at the end filters the old list and then keeps the new todo if it matches |
| TodoProofs.AddTodoVisible | src/todoModel.ts:69-73 | a non-blank add shows the new todo at the end of the visible list unless the filter is completed, and raises the items-left count by one |
| TodoProofs.SelectIdempotent | src/todoModel.ts:114-115 | filtering an already filtered list by the same flag changes nothing |
| TodoProofs.VisibleIdempotent | src/todoModel.ts:113-117 | the visible list, viewed again under the same filter, is unchanged |
| TodoProofs.DenseIsValid | src/todoModel.ts:64-72 | ids 1, 2, 3, … in order with next id one past the last satisfy the state invariant |
| TodoProofs.Step | src/main.ts:79-114 | each handler's call (add the submitted text, toggle the clicked id, set the clicked filter) adds at most one todo and never removes, reorders or relabels one |
| TodoProofs.StepPreservesValid | src/main.ts:79-114 | each handler's call keeps the state invariant |
| TodoProofs.StepPreservesDense | src/main.ts:79-114 | each of the view's handlers (submit, checkbox click, filter click) keeps ids dense |
| TodoProofs.ReplayValid | src/main.ts:22-114 | `Replay` models the module-level `state` (:22) as the handlers reassign it (:84, :100, :111), starting from the starting state; every state it can reach by any sequence of handler calls has dense ids and satisfies the state invariant |
| TodoScenarios.EmptyFixture | tests/unit/mocktodoStates.ts:9-13 | the `emptyState` fixture has no todos and satisfies the state invariant |
| TodoScenarios.OneActiveOneCompletedFixture | tests/unit/mocktodoStates.ts:17-24 | the `oneActiveOneCompletedState` fixture satisfies the state invariant and has exactly one open todo |
| TodoScenarios.FilteredActiveFixture | tests/unit/mocktodoStates.ts:39-47 | the `filteredActiveState` fixture has distinct ids but breaks the state invariant, because a todo carries id 3 while `nextId` is 3 |
| TodoScenarios.Texts | dist/tests/unit/todoModel.test.js:30 | the list of texts of a todo list, `todos.map(todo => todo.text)`: same length, and entry i is the text of todo i |
| TodoScenarios.CreateEmptyStateIsFixture | dist/tests/unit/todoModel.test.js:9-12 | the starting state equals the `emptyState` fixture |
| TodoScenarios.AddToEmptyScenario | dist/tests/unit/todoModel.test.js:13-18 | adding "Learn TypeScript testing" to the empty state gives one todo and next id 2 |
| TodoScenarios.ToggleScenario | dist/tests/unit/todoModel.test.js:19-27 | toggling id 1 of a one-todo state completes it |
| TodoScenarios.FilteredActiveScenario | dist/tests/unit/todoModel.test.js:28-31 | the `filteredActiveState` fixture shows "Active 1" and "Active 2", and the fixture itself breaks the state invariant |
| TodoScenarios.ItemsLeftScenario | dist/tests/unit/todoModel.test.js:32-35 | the one-active-one-completed fixture has one item left |
| TodoScenarios.BuyMilkScenario | tests/e2e/todo.e2e.spec.ts:17-25 | adding "Buy milk" gives the single open todo with id 1, next id 2 and one item left |
| TodoScenarios.CompleteFirstOfTwo | tests/e2e/todo.e2e.spec.ts:27-46 | for any two clean texts, adding both and checking the first lists both under "all", the first completed and the second open; one item is left and the active list holds only the second |
| TodoScenarios.CompleteScenario | tests/e2e/todo.e2e.spec.ts:27-46 | the same with "Task 1" and "Task 2" |
| TodoScenarios.FilterViews | tests/e2e/todo.e2e.spec.ts:59-71 | with an open first and a completed second todo, the active filter shows only the first text and the completed filter only the second |
| TodoScenarios.FilterTwo | tests/e2e/todo.e2e.spec.ts:48-72 | for any two clean texts, adding both, checking the second and filtering shows the first under "active" and the second under "completed" |
| TodoScenarios.FilterScenario | tests/e2e/todo.e2e.spec.ts:48-72 | the same with "Active" and "Done" |

## Left out

- DOM rendering, event listeners and the module-level mutable `state` in `src/main.ts` are UI glue. The handlers are modelled only as the three actions of `TodoProofs.Step`. The "N item left" label (`src/main.ts:66`) is string formatting inside DOM code and is not modelled.
- `server.ts`, the development static file server, is HTTP and file-system I/O that depends on Node's path library.
- `dist/` holds compiled copies of the TypeScript sources with no logic of their own. Only the compiled unit tests are cited, as scenarios.
- Playwright configuration and browser automation are left out. The three browser scenarios appear only as lemmas over the model.
- TodoModel.AddTodo: ids and `nextId` are unbounded integers. JavaScript's floating-point `nextId + 1` stops being exact past 2^53, and that is not modelled.
- TodoModel.ToggleTodo: the loose `==` between ids is plain integer equality. `NaN` ids produced by `Number(...)` in `src/main.ts:99` are not modelled.
- Text.Trim: strings are sequences of Unicode code points, not UTF-16 code units. Every white-space code point lies in the Basic Multilingual Plane, so trimming agrees with JavaScript. The WhiteSpace set is the one defined by Unicode's current "Zs" category.
