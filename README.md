# To-do list page state, in Dafny

This project models the state logic of a browser to-do list page
(`src/pages/index.tsx`, the `Home` component). The page keeps one list of
to-do records in component state. Three mutators replace that list:

- `AddTodo` appends a record whose id is the current length plus one.
- `deleteTodo` filters the list.
- `toggleProperty` maps over the list and flips `isCompleted` or `isUrgent`
  on the records with a given id.

Three filtered views of the list are rendered: urgent and not completed,
not urgent and not completed, and completed.

Layout:

- `todos.dfy` (module `Todos`): the `Todo` record and the `Property` key.
  It holds `Filter`, which models `Array.prototype.filter`. It also holds the
  pure new-list computations of the three mutators, with their lemmas.
- `views.dfy` (module `Views`): the three view filters and the proof that
  they partition the list.
- `home.dfy` (module `Home`): class `TodoPage`. It holds the `todos` state as
  a `seq<Todo>` field. Its mutator methods replace that field. Its two
  display methods only read it.

`deleteTodo` at `src/pages/index.tsx:45` keeps the records whose id EQUALS
the argument. `TodoPage.DeleteTodo` reproduces this as written, through
`KeepOnlyId`. The evidently intended deletion is `WithoutId`, a separate
function (see Findings). The id policy is also modelled as written. It does
not keep ids unique once the list has shrunk, and `IdCollisionAfterDelete`
exhibits a collision.

## Model

| member | source | states |
|---|---|---|
| `Todos.Filter` | src/pages/index.tsx:45 | the result holds only elements satisfying the predicate; an element is in it iff it is in the input and satisfies the predicate; each such element occurs exactly as often as in the input, every other not at all |
| `Todos.FilterIsSubsequence` | src/pages/index.tsx:45 | a filter result is an order-preserving subsequence of its input |
| `Todos.FilterAppend` | src/pages/index.tsx:41 | filtering a list with records appended is filtering the old list, then the appended part |
| `Todos.NewTodo` | src/pages/index.tsx:27-33 | the new record has id = current length + 1, the given title and description, and both flags false |
| `Todos.WithNewTodo` | src/pages/index.tsx:41 | adding grows the list by exactly one, keeps every old record at its position, and puts the new record last |
| `Todos.AddKeepsDenseIdsUnique` | src/pages/index.tsx:28 | while all ids lie in 1..length and are unique, the length+1 id is fresh, and after adding they are still unique and in range |
| `Todos.KeepOnlyId` | src/pages/index.tsx:45 | deleteTodo as written: every surviving record has the given id; a record survives iff it had that id, exactly as many times as it occurred; the result is empty when nothing matches; order is kept |
| `Todos.WithoutId` | src/pages/index.tsx:44-46 | intended deletion: no surviving record has the id; a record survives iff its id differs, exactly as many times as it occurred; nothing matching leaves the list unchanged; order is kept |
| `Todos.DeleteAsWrittenKeepsTarget` | src/pages/index.tsx:44-45 | on [{id:1},{id:2}], deleting 1 as written leaves [{id:1}]; the intended deletion leaves [{id:2}] |
| `Todos.IdCollisionAfterDelete` | src/pages/index.tsx:26-45 | after a deletion (intended or as written) shrinks [{id:1},{id:2}], the next added record reuses id 2, so ids are no longer unique |
| `Todos.Toggled` | src/pages/index.tsx:76 | the copy keeps id, title and description and the other flag, and negates the named flag |
| `Todos.ToggledTwice` | src/pages/index.tsx:76 | toggling the same flag of a record twice gives the record back |
| `Todos.ToggleMatching` | src/pages/index.tsx:73-79 | length is kept; at each position, a record with the id is replaced by its toggled copy and any other record is unchanged |
| `Todos.ToggleKeepsIds` | src/pages/index.tsx:73-79 | toggling keeps every id at its position, so ids in range and unique ids stay so |
| `Todos.ToggleUnmatchedIsIdentity` | src/pages/index.tsx:73-79 | toggling an id no record carries leaves the list unchanged |
| `Todos.ToggleTwiceIsIdentity` | src/pages/index.tsx:71-83 | toggling the same (id, property) twice restores the original list |
| `Views.UrgentActive` | src/pages/index.tsx:122 | a record is shown iff it is in the list, not completed and urgent; multiplicities are kept; the view is an order-preserving subsequence |
| `Views.NonUrgentActive` | src/pages/index.tsx:125 | a record is shown iff it is in the list, not completed and not urgent; multiplicities are kept; the view is an order-preserving subsequence |
| `Views.Completed` | src/pages/index.tsx:130 | a record is shown iff it is in the list and completed; multiplicities are kept; the view is an order-preserving subsequence |
| `Views.ViewsPartition` | src/pages/index.tsx:113-131 | the three views' multisets add up to the list's multiset; every record of the list is in some view, and no record is in two views |
| `Views.AddShowsAsNonUrgent` | src/pages/index.tsx:26-42 | a newly added record appears at the end of the non-urgent view; the urgent and completed views are unchanged |
| `Views.TwoItemScenario` | src/pages/index.tsx:119-131 | on [{id:1, urgent}, {id:2, not urgent}], the urgent view is [{id:1}], the non-urgent view is [{id:2}], and the completed view is empty |
| `Home.TodoPage.constructor` | src/pages/index.tsx:24 | the state starts as the given initial list |
| `Home.TodoPage.AddTodo` | src/pages/index.tsx:26-42 | the new state is the old list plus one record: id old length + 1, the given texts, both flags false |
| `Home.TodoPage.DeleteTodo` | src/pages/index.tsx:44-46 | as written: the new state holds exactly the old records whose id equals the argument, each as many times as before, in order |
| `Home.TodoPage.ToggleProperty` | src/pages/index.tsx:71-83 | the new state is the old list with the named flag flipped on matching records; length is kept, and non-matching records are unchanged |
| `Home.TodoPage.DisplayTodos` | src/pages/index.tsx:119-127 | shows exactly the not-completed records whose urgency equals the argument |
| `Home.TodoPage.DisplayComplete` | src/pages/index.tsx:129-131 | shows exactly the completed records |

## Findings

| source | as written | input that shows it | evidently intended | confidence | as-written member | corrected member |
|---|---|---|---|---|---|---|
| src/pages/index.tsx:45 | `todos.filter((todo) => todo.id === id)` keeps only the record to be deleted | deleting id 1 from [{id:1},{id:2}] leaves [{id:1}] | `todo.id !== id`: remove the matching record, keep the rest in order | high (not executed) | `Todos.KeepOnlyId`, exhibited by `Todos.DeleteAsWrittenKeepsTarget` | `Todos.WithoutId` |

`TodoPage.DeleteTodo` keeps the behaviour as written, so that the page model
matches the code. `WithoutId` carries the intended contract: a record
survives iff its id differs, and deleting a missing id changes nothing.

## Left out

- JSX rendering, `<Head>`, and the `TodoList` component: presentation only. The display methods return the list they would render.
- React state semantics: `useState`, `useCallback` memoisation, update batching and stale closures. Line 28 reads the closed-over list while line 41 uses the updater form. The model is one sequential list that each operation reads and replaces.
- The initial contents from `sampleData.json`: that file is not part of this model. The constructor takes any initial list.
- Ids are JavaScript numbers compared with `===`. They are modelled as unbounded integers, so NaN and fractional ids are not modelled.
- Strings are sequences of characters. No encoding is modelled.
- The banner component (`src/components/Banner.tsx`): a network fetch of an image, API-key lookup and window-size listeners. This is I/O and browser environment.
- The add form (`src/components/AddTodoForm.tsx`): it only calls `AddTodo(title, desc)` and clears its inputs. `required` validation is done by the browser. Empty strings are accepted by the model, as they are by `AddTodo`.
- The commented-out earlier versions (the mutating `AddTodo` and `toggleProperty`, and an equivalent `displayTodos`): dead code.
