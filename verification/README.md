# Todo list state logic in Dafny

This project models the state logic of a small client-side todo list. The
logic lives in the `App` component of `vite-project/src/App.tsx`. A task
(`Todo`) has a text `value`, a read-only numeric `id`, a `checked`
("completed") flag and a `removed` flag. The `removed` flag is a soft
delete: the task sits in the trash but stays in the list. The component
keeps the list and the selected view (`Filter`) as React state. Four pieces
of logic act on that state:

- `filteredTodos` derives the displayed list from the selected view
  (`all`, `checked`, `unchecked`, `removed`).
- `handleSubmit` prepends a new task, unless the text is empty.
- `handleTodo` overwrites one key of every task with a given id.
- `handleEmpty` empties the trash, dropping every task marked removed.

The model replaces the React state hooks with pure functions. Each one
takes the current list and returns the next list.

- `seqs.dfy` (module `Seqs`): order-preserving filtering. This is the
  behaviour of `Array.prototype.filter`, on which both the views and the
  trash purge rely. The module also defines the subsequence relation and
  the algebra of filters: congruence, composition, complement split and
  idempotence.
- `todos.dfy` (module `Todos`): the `Todo`, `Filter` and `Update` datatypes
  and the operations `View`, `Add`, `SetField` and `Purge`.
  `Update = SetValue(text) | SetChecked(flag) | SetRemoved(flag)` pairs a
  key of `handleTodo` with a value of that key's type. This mirrors the
  source's `V extends Todo[K]`.
- `todo_lemmas.dfy` (module `TodoLemmas`): how the views partition the
  list, what adding does to each view, the frame of a field update, and
  what emptying the trash keeps.
- `store.dfy` (module `Store`): the component as a reducer over
  `State(todos, filter)` and user `Action`s, including `handleFilter`. It
  also proves that ids stay unique as long as the clock moves forward, and
  replays a short session step by step.

The clock reading `new Date().getTime()` used as a new task's id becomes a
parameter: `Add`'s `id`, or `Submit`'s `now`. Id uniqueness is not a
precondition of any operation. It is a hypothesis of the lemmas that
preserve it, because the source does not demand it of callers.

Two details of the code decide the model:
- `handleTodo` maps over the whole list (`vite-project/src/App.tsx:65-71`),
  so `SetField` changes every task whose id matches. Ids can collide: see
  `Store.SameTickCollides`.
- `text` is the component's string state, so `!text`
  (`vite-project/src/App.tsx:47`) holds only for the empty string.

## Model

| member | source | states |
|---|---|---|
| Seqs.Filter | vite-project/src/App.tsx:23 | The filtered list holds only elements that pass the predicate and occur in the input, and every input element that passes occurs in it. The result is a subsequence of the input, in the same order, and is no longer than the input. |
| Seqs.FilterCounts | vite-project/src/App.tsx:23 | Filtering keeps each passing element exactly as many times as it occurs in the input, and drops every failing element, so duplicate tasks are kept with their multiplicity. |
| Seqs.FilterKeepsAll | vite-project/src/App.tsx:23 | Filtering returns the input unchanged if and only if every element passes. |
| Seqs.FilterIdempotent | vite-project/src/App.tsx:76 | Filtering a filtered list by the same predicate changes nothing. |
| Seqs.FilterCongruent | vite-project/src/App.tsx:76 | Two predicates that agree on every element of the list give the same filtered list. |
| Seqs.FilterFilter | vite-project/src/App.tsx:29-34 | Filtering by p and then by q is the same as filtering once by "p and q". |
| Seqs.FilterSplit | vite-project/src/App.tsx:23-41 | A predicate and its complement split a list into two filtered lists. Together they hold every element exactly as often as the input does (multiset equality), and their lengths add up to the input's length. |
| TodoLemmas.ShowsByFlags | vite-project/src/App.tsx:25-37 | On any single task, the `all` and `removed` cases of the switch accept complementary sets, and `all` accepts exactly what `checked` or `unchecked` accepts, which never both accept. |
| Todos.View | vite-project/src/App.tsx:23-41 | Each view holds exactly the tasks of the list that its case of the switch accepts, and no task that is not in the list. It is a subsequence of the list. |
| TodoLemmas.AllAndRemovedPartition | vite-project/src/App.tsx:26-37 | The `all` view (tasks not removed) and the `removed` view have no task in common. Together they hold the whole list, as a multiset and by length. |
| TodoLemmas.CheckedViewsNarrowAll | vite-project/src/App.tsx:26-34 | The `checked` view is the `all` view filtered to completed tasks. The `unchecked` view is the `all` view filtered to open tasks. |
| TodoLemmas.CheckedAndUncheckedPartitionAll | vite-project/src/App.tsx:26-34 | The `checked` and `unchecked` views have no task in common. Together they hold exactly the `all` view, as a multiset and by length. |
| Todos.Add | vite-project/src/App.tsx:46-57 | Empty text leaves the list unchanged. Non-empty text puts a new task in front of the unchanged old list: the given text and id, unchecked, not removed, and one longer. If the id is fresh, id uniqueness is kept. |
| TodoLemmas.AddViews | vite-project/src/App.tsx:49-55 | Adding non-empty text puts the new task at the front of the `all` and `unchecked` views and leaves the `checked` and `removed` views unchanged. Empty text changes no view. |
| Todos.Apply | vite-project/src/App.tsx:67 | Overwriting one key of a task makes the task hold the new value, keeps its id and every other key, and changes nothing when the task already holds that value. |
| Todos.SetField | vite-project/src/App.tsx:59-74 | The length and every id stay the same. Tasks with another id are unchanged. A task with the given id gets the named key set to the new value and keeps its other keys. If the id is absent, the list is returned unchanged. |
| TodoLemmas.SetFieldKeepsIds | vite-project/src/App.tsx:64-73 | A field update keeps the set of ids, and so keeps ids unique. |
| TodoLemmas.SetFieldHeldIsNoOp | vite-project/src/App.tsx:64-73 | Writing a value that every task with that id already holds returns the list unchanged. |
| TodoLemmas.SetFieldLastWins | vite-project/src/App.tsx:64-73 | Of two writes to the same key of the same id, the later one decides the result. |
| TodoLemmas.SetFieldIdempotent | vite-project/src/App.tsx:64-73 | Repeating a field update gives the same list as doing it once. |
| TodoLemmas.SetFieldRestores | vite-project/src/App.tsx:128-139 | Toggling a key and then writing back the value the tasks held (delete then restore, check then uncheck) gives back the original list. |
| TodoLemmas.SetRemovedMovesToTrash | vite-project/src/App.tsx:137 | Deleting a task puts it in the `removed` view and takes it out of the `all` view. |
| Todos.Purge | vite-project/src/App.tsx:75-77 | After the trash is emptied, no task is marked removed. Every task not marked removed is kept, and the kept tasks stay in their original order as a subsequence. |
| TodoLemmas.PurgeIsAllView | vite-project/src/App.tsx:76 | Emptying the trash gives exactly the list that the `all` view shows. |
| TodoLemmas.PurgeIdempotent | vite-project/src/App.tsx:75-77 | Emptying the trash twice gives the same list as emptying it once. |
| TodoLemmas.PurgeChangesIffSomeRemoved | vite-project/src/App.tsx:75-77 | Emptying the trash returns the list unchanged if and only if no task is marked removed. This is the condition that disables the empty-trash button at line 103. |
| TodoLemmas.PurgeKeepsNoNewIds | vite-project/src/App.tsx:76 | Emptying the trash brings in no new id. |
| TodoLemmas.FilterKeepsUniqueIds | vite-project/src/App.tsx:76 | Filtering a list whose ids are unique gives a list whose ids are unique. |
| TodoLemmas.PurgeKeepsUniqueIds | vite-project/src/App.tsx:75-77 | Emptying the trash keeps ids unique. |
| TodoLemmas.PurgeViews | vite-project/src/App.tsx:75-77 | After the trash is emptied, the `removed` view is empty and every other view is unchanged. |
| Store.Visible | vite-project/src/App.tsx:20-41 | The displayed list holds only tasks of the list that the selected view accepts, holds every such task, and is a subsequence of the list. |
| Store.Step | vite-project/src/App.tsx:20-77 | Selecting a view changes only the view (`handleFilter`). Every other action leaves the view alone and adds at most one task. The only id it can bring in is the submitted clock reading. |
| Store.StepVisible | vite-project/src/App.tsx:20-77 | The displayed list after an action: selecting a view shows the list under that view. Emptying the trash empties the trash view and leaves the other views as they were. A non-empty submission shows the new task first under `all` and `unchecked`; other submissions leave the display as it was. An edit keeps the selected view, and an edit of an id not in the list leaves the display as it was. Every action except selecting a view keeps the selected view. |
| Store.Run | vite-project/src/App.tsx:14-18 | After a sequence of actions, the list has grown by at most one task per action. |
| Store.RunKeepsUniqueIds | vite-project/src/App.tsx:47-55 | If every non-empty submission reads a clock that is strictly later than every existing id and than every earlier reading, ids stay unique through any sequence of actions. Empty submissions return before reading the clock and are unconstrained. |
| Store.EmptySubmitFree | vite-project/src/App.tsx:47-51 | An empty submission returns before the clock is read, so inserting one anywhere in a run, with any clock reading, neither adds to nor relaxes the clock hypothesis of the run. |
| Store.SameTickCollides | vite-project/src/App.tsx:51 | From any state, two non-empty submissions (any two texts) with the same clock reading give two tasks the same id, so uniqueness needs the clock to move forward. |
| Store.SessionAddsNewestFirst | vite-project/src/App.tsx:46-57 | Two submissions list the newer task first. |
| Store.SessionCompletesMilk | vite-project/src/App.tsx:59-74 | Checking the older task makes it the only task in the `checked` view. |
| Store.SessionDeletesMilk | vite-project/src/App.tsx:59-74 | Deleting that task empties the `checked` view, and the task now appears in the `removed` view. |
| Store.SessionEmptiesTrash | vite-project/src/App.tsx:75-77 | Emptying the trash then leaves only the newer task. |

## Left out

- Rendering (lines 89-146): the JSX markup, the drop-down, the buttons, and the disabled states of the inputs and buttons (lines 103, 126, 132). These are presentation only; they restrict which actions a user can trigger, but they do not change the state logic.
- The text-input state: `handleChange` (lines 42-44) and the reset of the input after a submission (line 56). The submitted text is a parameter of `Add` instead.
- Persistence through `localforage` (lines 79-87): the load at start-up and the save after every change. This is asynchronous I/O through a foreign library, and its ordering is React runtime behaviour. For the same reason, the save-then-load round trip is not modelled.
- The `isTodos` validator used when loading: `vite-project/src/lib/isTodos.ts` is not part of this model.
- The clock: `new Date().getTime()` becomes an integer parameter. JavaScript numbers are doubles, but millisecond timestamps are exact integers, so ids are modelled as `int`.
- The `default` branch of the view switch (lines 38-39): it lets every task through, but no value of the closed `Filter` datatype reaches it, so it is dead code here.
- The `id` key of `handleTodo`: the `id` field is declared read-only, and no caller passes it as the key. `Update` has no case for it.
