/**
 The application state as a reducer: the list and the selected view are
 explicit state, every user action maps the current state to the next one,
 and the displayed list is derived from the state on demand.
 */
module Store {
  import opened Todos
  import Seqs
  import TodoLemmas

  /** The task list and the view selected in the drop-down. */
  datatype State = State(todos: seq<Todo>, filter: Filter)

  /** The user actions that change the state. `now` is the clock reading
      taken when a task is submitted; it becomes the new task's id. */
  datatype Action =
    | Submit(text: string, now: int)
    | Edit(id: int, update: Update)
    | EmptyTrash
    | SelectFilter(choice: Filter)

  /** The state at start-up: no tasks, every live task shown. */
  const Initial := State([], All)

  /** The tasks displayed for state `st`: those of the list that the
      selected view shows, in list order. */
  function Visible(st: State): (r: seq<Todo>)
    ensures forall i :: 0 <= i < |r| ==> Shows(st.filter, r[i]) && r[i] in st.todos
    ensures forall i :: 0 <= i < |st.todos| && Shows(st.filter, st.todos[i]) ==> st.todos[i] in r
    ensures Seqs.IsSubsequence(r, st.todos)
  {
    View(st.todos, st.filter)
  }

  /** The state after action `a`. Selecting a view touches only the view;
      every other action touches only the list, adds at most one task, and
      brings in no id except the submitted clock reading. */
  function Step(st: State, a: Action): (r: State)
    ensures a.SelectFilter? ==> r.todos == st.todos && r.filter == a.choice
    ensures !a.SelectFilter? ==> r.filter == st.filter
    ensures |r.todos| <= |st.todos| + (if a.Submit? then 1 else 0)
    ensures Ids(r.todos) <= Ids(st.todos) + (if a.Submit? then {a.now} else {})
  {
    match a
    case Submit(text, now) => st.(todos := Add(st.todos, text, now))
    case Edit(id, u) =>
      TodoLemmas.SetFieldKeepsIds(st.todos, id, u);
      st.(todos := SetField(st.todos, id, u))
    case EmptyTrash =>
      TodoLemmas.PurgeKeepsNoNewIds(st.todos);
      st.(todos := Purge(st.todos))
    case SelectFilter(f) => st.(filter := f)
  }

  /** What is displayed after an action: selecting a view shows the list
      under the new view; emptying the trash empties the trash view and leaves
      every other view as it was; a submission shows the new task at the front
      exactly when the selected view shows open live tasks; an edit keeps the
      selected view, and an edit of an unknown id changes nothing shown. */
  lemma StepVisible(st: State, a: Action)
    ensures a.SelectFilter? ==> Visible(Step(st, a)) == View(st.todos, a.choice)
    ensures a.EmptyTrash? ==>
              Visible(Step(st, a)) == (if st.filter == Removed then [] else Visible(st))
    ensures a.Submit? && a.text != "" && (st.filter == All || st.filter == Unchecked) ==>
              Visible(Step(st, a)) == [Todo(a.text, a.now, false, false)] + Visible(st)
    ensures a.Submit? && (a.text == "" || st.filter == Checked || st.filter == Removed) ==>
              Visible(Step(st, a)) == Visible(st)
    ensures a.Edit? && a.id !in Ids(st.todos) ==> Visible(Step(st, a)) == Visible(st)
    ensures !a.SelectFilter? ==> Step(st, a).filter == st.filter
  {
    match a {
      case EmptyTrash => TodoLemmas.PurgeViews(st.todos, st.filter);
      case Submit(text, now) => TodoLemmas.AddViews(st.todos, text, now, st.filter);
      case _ =>
    }
  }

  /** The state after the actions `acts`, in order. The list grows by at
      most one task per submission. */
  function Run(st: State, acts: seq<Action>): (r: State)
    ensures |r.todos| <= |st.todos| + |acts|
    decreases |acts|
  {
    if acts == [] then st else Run(Step(st, acts[0]), acts[1..])
  }

  /** Every non-empty submission in `acts` reads the clock at `lo` or later,
      and each such reading is strictly later than the one before. An empty
      submission returns before it reads the clock, so its `now` is free. */
  predicate StampsFrom(acts: seq<Action>, lo: int)
    decreases |acts|
  {
    || acts == []
    || (match acts[0]
        case Submit(text, now) =>
          if text == "" then StampsFrom(acts[1..], lo)
          else lo <= now && StampsFrom(acts[1..], now + 1)
        case _ => StampsFrom(acts[1..], lo))
  }

  /** A clock that moves strictly forward between non-empty submissions, starting
      after every id already in the list, keeps ids unique through any
      sequence of actions. */
  lemma {:induction false} RunKeepsUniqueIds(st: State, acts: seq<Action>, lo: int)
    requires UniqueIds(st.todos)
    requires forall x :: x in Ids(st.todos) ==> x < lo
    requires StampsFrom(acts, lo)
    ensures UniqueIds(Run(st, acts).todos)
    decreases |acts|
  {
    if acts != [] {
      var a := acts[0];
      var next := Step(st, a);
      var lo' := if a.Submit? && a.text != "" then a.now + 1 else lo;
      match a {
        case Submit(text, now) =>
          assert UniqueIds(next.todos);
        case Edit(id, u) =>
          TodoLemmas.SetFieldKeepsIds(st.todos, id, u);
        case EmptyTrash =>
          TodoLemmas.PurgeKeepsUniqueIds(st.todos);
        case SelectFilter(_) =>
      }
      RunKeepsUniqueIds(next, acts[1..], lo');
    }
  }

  /** An empty submission returns before it reads the clock: wherever it
      stands in a run, its clock reading places no demand on the run. */
  lemma {:induction false} EmptySubmitFree(pre: seq<Action>, post: seq<Action>, x: int, lo: int)
    ensures StampsFrom(pre + [Submit("", x)] + post, lo) == StampsFrom(pre + post, lo)
    decreases |pre|
  {
    if pre == [] {
      assert pre + [Submit("", x)] + post == [Submit("", x)] + post;
      assert ([Submit("", x)] + post)[1..] == post;
      assert pre + post == post;
    } else {
      var a := pre[0];
      var lo' := if a.Submit? && a.text != "" then a.now + 1 else lo;
      EmptySubmitFree(pre[1..], post, x, lo');
      assert (pre + [Submit("", x)] + post)[0] == a;
      assert (pre + [Submit("", x)] + post)[1..] == pre[1..] + [Submit("", x)] + post;
      assert (pre + post)[0] == a;
      assert (pre + post)[1..] == pre[1..] + post;
    }
  }

  /** Two non-empty submissions within the same clock tick, from any state,
      give two tasks the same id: uniqueness rests on the clock moving
      forward. */
  lemma SameTickCollides(st: State, t1: string, t2: string, now: int)
    requires t1 != "" && t2 != ""
    ensures !UniqueIds(Run(st, [Submit(t1, now), Submit(t2, now)]).todos)
  {
    var acts := [Submit(t1, now), Submit(t2, now)];
    var s1 := Step(st, acts[0]);
    var s2 := Step(s1, acts[1]);
    assert s2.todos[0].id == now && s2.todos[1].id == now;
    assert acts[1..][1..] == [];
    assert Run(st, acts) == Run(s1, acts[1..]) == Run(s2, []) == s2;
  }

  /** The view of a two-task list, task by task. */
  lemma ViewOfPair(a: Todo, b: Todo, f: Filter)
    ensures View([a, b], f) == (if Shows(f, a) then [a] else []) + (if Shows(f, b) then [b] else [])
  {
    var p := (t: Todo) => Shows(f, t);
    assert [a, b][1..] == [b];
    assert [b][1..] == [];
    assert Seqs.Filter([b], p) == (if p(b) then [b] else []);
    assert Seqs.Filter([a, b], p) == (if p(a) then [a] else []) + Seqs.Filter([b], p);
  }

  /** Editing the second task of a two-task list whose ids differ. */
  lemma EditSecondOfPair(a: Todo, b: Todo, u: Update)
    requires a.id != b.id
    ensures SetField([a, b], b.id, u) == [a, Apply(b, u)]
  {
  }

  // A short session: add two tasks, complete the older one, delete it,
  // then empty the trash. Each lemma below is one step of it.

  /** Two submissions list the newer task first. */
  lemma SessionAddsNewestFirst()
    ensures Step(Step(Initial, Submit("buy milk", 1)), Submit("walk dog", 2)).todos
              == [Todo("walk dog", 2, false, false), Todo("buy milk", 1, false, false)]
  {
  }

  /** Completing the older task makes it the only one under `Checked`. */
  lemma SessionCompletesMilk()
    ensures var after := Step(State([Todo("walk dog", 2, false, false), Todo("buy milk", 1, false, false)], All),
                              Edit(1, SetChecked(true)));
            && after.todos == [Todo("walk dog", 2, false, false), Todo("buy milk", 1, true, false)]
            && View(after.todos, Checked) == [Todo("buy milk", 1, true, false)]
  {
    var dog := Todo("walk dog", 2, false, false);
    var milk := Todo("buy milk", 1, false, false);
    var done := Todo("buy milk", 1, true, false);
    var before := State([dog, milk], All);
    EditSecondOfPair(dog, milk, SetChecked(true));
    assert Step(before, Edit(1, SetChecked(true))).todos == [dog, done];
    ViewOfPair(dog, done, Checked);
  }

  /** Deleting it moves it from `Checked` into the trash. */
  lemma SessionDeletesMilk()
    ensures var after := Step(State([Todo("walk dog", 2, false, false), Todo("buy milk", 1, true, false)], Checked),
                              Edit(1, SetRemoved(true)));
            && after.todos == [Todo("walk dog", 2, false, false), Todo("buy milk", 1, true, true)]
            && View(after.todos, Checked) == []
            && View(after.todos, Removed) == [Todo("buy milk", 1, true, true)]
  {
    var dog := Todo("walk dog", 2, false, false);
    var milk := Todo("buy milk", 1, true, false);
    var gone := Todo("buy milk", 1, true, true);
    var before := State([dog, milk], Checked);
    EditSecondOfPair(dog, milk, SetRemoved(true));
    assert Step(before, Edit(1, SetRemoved(true))).todos == [dog, gone];
    ViewOfPair(dog, gone, Checked);
    ViewOfPair(dog, gone, Removed);
  }

  /** Emptying the trash leaves only the newer task. */
  lemma SessionEmptiesTrash()
    ensures Step(State([Todo("walk dog", 2, false, false), Todo("buy milk", 1, true, true)], Removed), EmptyTrash).todos
              == [Todo("walk dog", 2, false, false)]
  {
    var dog := Todo("walk dog", 2, false, false);
    var gone := Todo("buy milk", 1, true, true);
    ViewOfPair(dog, gone, All);
    TodoLemmas.PurgeIsAllView([dog, gone]);
  }
}
