/**
 Properties of the task-list operations: how the four views divide the
 list, what adding a task does to each view, the frame of a field update,
 and what emptying the trash keeps.
 */
module TodoLemmas {
  import Seqs
  import opened Todos

  /** How the four views relate on a single task: `All` and `Removed` are
      complementary, and `All` shows exactly what `Checked` or `Unchecked`
      shows, never both. */
  lemma ShowsByFlags(t: Todo)
    ensures Shows(All, t) <==> !Shows(Removed, t)
    ensures Shows(All, t) <==> Shows(Checked, t) || Shows(Unchecked, t)
    ensures !(Shows(Checked, t) && Shows(Unchecked, t))
  {
  }

  /** A task is live (shown under `All`) or in the trash (shown under
      `Removed`), never both; together the two views hold the whole list. */
  lemma AllAndRemovedPartition(todos: seq<Todo>)
    ensures multiset(View(todos, All)) + multiset(View(todos, Removed)) == multiset(todos)
    ensures |View(todos, All)| + |View(todos, Removed)| == |todos|
    ensures forall t :: t in View(todos, All) ==> t !in View(todos, Removed)
  {
    Seqs.FilterSplit(todos, t => Shows(All, t), t => Shows(Removed, t));
  }

  /** The `Checked` view is the `All` view narrowed to completed tasks, and
      `Unchecked` the `All` view narrowed to open ones. */
  lemma CheckedViewsNarrowAll(todos: seq<Todo>)
    ensures View(todos, Checked) == Seqs.Filter(View(todos, All), (t: Todo) => t.checked)
    ensures View(todos, Unchecked) == Seqs.Filter(View(todos, All), (t: Todo) => !t.checked)
  {
    Seqs.FilterFilter(todos, t => Shows(All, t), (t: Todo) => t.checked, t => Shows(Checked, t));
    Seqs.FilterFilter(todos, t => Shows(All, t), (t: Todo) => !t.checked, t => Shows(Unchecked, t));
  }

  /** The `Checked` and `Unchecked` views split the `All` view: no task in
      both, and together exactly the live tasks. */
  lemma CheckedAndUncheckedPartitionAll(todos: seq<Todo>)
    ensures multiset(View(todos, Checked)) + multiset(View(todos, Unchecked)) == multiset(View(todos, All))
    ensures |View(todos, Checked)| + |View(todos, Unchecked)| == |View(todos, All)|
    ensures forall t :: t in View(todos, Checked) ==> t !in View(todos, Unchecked)
  {
    CheckedViewsNarrowAll(todos);
    Seqs.FilterSplit(View(todos, All), (t: Todo) => t.checked, (t: Todo) => !t.checked);
  }

  /** Dropping the first task keeps ids unique. */
  lemma UniqueIdsTail(todos: seq<Todo>)
    requires todos != [] && UniqueIds(todos)
    ensures UniqueIds(todos[1..])
  {
    var rest := todos[1..];
    forall i, j | 0 <= i < j < |rest|
      ensures rest[i].id != rest[j].id
    {
      assert rest[i] == todos[i + 1] && rest[j] == todos[j + 1];
    }
  }

  /** No task kept from the tail of a list with unique ids carries the id of
      the list's first task. */
  lemma HeadIdNotInFilteredTail(todos: seq<Todo>, p: Todo -> bool)
    requires todos != [] && UniqueIds(todos)
    ensures forall j :: 0 <= j < |Seqs.Filter(todos[1..], p)| ==> Seqs.Filter(todos[1..], p)[j].id != todos[0].id
  {
    var rest := todos[1..];
    var tail := Seqs.Filter(rest, p);
    forall j | 0 <= j < |tail|
      ensures tail[j].id != todos[0].id
    {
      assert tail[j] in rest;
      var k :| 0 <= k < |rest| && rest[k] == tail[j];
      assert rest[k] == todos[k + 1];
    }
  }

  /** Any filtering of a list with unique ids has unique ids. */
  lemma {:induction false} FilterKeepsUniqueIds(todos: seq<Todo>, p: Todo -> bool)
    requires UniqueIds(todos)
    ensures UniqueIds(Seqs.Filter(todos, p))
  {
    if todos != [] {
      UniqueIdsTail(todos);
      FilterKeepsUniqueIds(todos[1..], p);
      if p(todos[0]) {
        HeadIdNotInFilteredTail(todos, p);
      }
    }
  }

  /** Under view `f`, adding non-empty text puts the new task at the front
      of the view when `f` shows unchecked live tasks, and leaves the view as
      it was otherwise; empty text changes no view. */
  lemma AddViews(todos: seq<Todo>, text: string, id: int, f: Filter)
    ensures text == "" ==> View(Add(todos, text, id), f) == View(todos, f)
    ensures text != "" && (f == All || f == Unchecked) ==>
              View(Add(todos, text, id), f) == [Todo(text, id, false, false)] + View(todos, f)
    ensures text != "" && (f == Checked || f == Removed) ==>
              View(Add(todos, text, id), f) == View(todos, f)
  {
  }

  /** A field update keeps the set of ids, and so keeps them unique. */
  lemma SetFieldKeepsIds(todos: seq<Todo>, id: int, u: Update)
    ensures Ids(SetField(todos, id, u)) == Ids(todos)
    ensures UniqueIds(todos) ==> UniqueIds(SetField(todos, id, u))
  {
  }

  /** Writing a value that every task with that id already holds returns
      the list unchanged. */
  lemma SetFieldHeldIsNoOp(todos: seq<Todo>, id: int, u: Update)
    requires forall i :: 0 <= i < |todos| && todos[i].id == id ==> Holds(todos[i], u)
    ensures SetField(todos, id, u) == todos
  {
  }

  /** Of two writes to the same key of the same id, the later one wins. */
  lemma SetFieldLastWins(todos: seq<Todo>, id: int, u: Update, v: Update)
    requires SameKey(u, v)
    ensures SetField(SetField(todos, id, u), id, v) == SetField(todos, id, v)
  {
  }

  /** Repeating a field update changes nothing more. */
  lemma SetFieldIdempotent(todos: seq<Todo>, id: int, u: Update)
    ensures SetField(SetField(todos, id, u), id, u) == SetField(todos, id, u)
  {
  }

  /** Writing a key and then writing back the value it held restores the
      list: deleting a task and restoring it, or checking and unchecking it,
      leaves no trace. */
  lemma SetFieldRestores(todos: seq<Todo>, id: int, u: Update, back: Update)
    requires SameKey(u, back)
    requires forall i :: 0 <= i < |todos| && todos[i].id == id ==> Holds(todos[i], back)
    ensures SetField(SetField(todos, id, u), id, back) == todos
  {
  }

  /** Deleting the task at position `k` moves it from the live views to the
      trash view. */
  lemma SetRemovedMovesToTrash(todos: seq<Todo>, k: int)
    requires 0 <= k < |todos|
    ensures var r := SetField(todos, todos[k].id, SetRemoved(true));
            r[k] in View(r, Removed) && r[k] !in View(r, All)
  {
  }

  /** Emptying the trash keeps exactly what the `All` view shows. */
  lemma PurgeIsAllView(todos: seq<Todo>)
    ensures Purge(todos) == View(todos, All)
  {
    Seqs.FilterCongruent(todos, (t: Todo) => !t.removed, t => Shows(All, t));
  }

  /** Emptying an empty trash changes nothing. */
  lemma PurgeIdempotent(todos: seq<Todo>)
    ensures Purge(Purge(todos)) == Purge(todos)
  {
    Seqs.FilterIdempotent(todos, (t: Todo) => !t.removed);
  }

  /** Emptying the trash changes the list exactly when some task is in the
      trash, the condition under which the empty-trash button is enabled. */
  lemma PurgeChangesIffSomeRemoved(todos: seq<Todo>)
    ensures Purge(todos) == todos <==> forall i :: 0 <= i < |todos| ==> !todos[i].removed
  {
    Seqs.FilterKeepsAll(todos, (t: Todo) => !t.removed);
  }

  /** Emptying the trash brings in no new id. */
  lemma PurgeKeepsNoNewIds(todos: seq<Todo>)
    ensures Ids(Purge(todos)) <= Ids(todos)
  {
  }

  /** Emptying the trash keeps ids unique. */
  lemma PurgeKeepsUniqueIds(todos: seq<Todo>)
    requires UniqueIds(todos)
    ensures UniqueIds(Purge(todos))
  {
    FilterKeepsUniqueIds(todos, (t: Todo) => !t.removed);
  }

  /** After emptying the trash the trash view is empty and every other view
      shows what it showed before. */
  lemma PurgeViews(todos: seq<Todo>, f: Filter)
    ensures f == Removed ==> View(Purge(todos), f) == []
    ensures f != Removed ==> View(Purge(todos), f) == View(todos, f)
  {
    var notRemoved := (t: Todo) => !t.removed;
    Seqs.FilterFilter(todos, notRemoved, t => Shows(f, t), (t: Todo) => !t.removed && Shows(f, t));
    if f != Removed {
      Seqs.FilterCongruent(todos, (t: Todo) => !t.removed && Shows(f, t), t => Shows(f, t));
    }
  }
}
