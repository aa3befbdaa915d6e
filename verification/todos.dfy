/**
 The task list of the todo application: the task record, the four views of
 the list, and the three operations that replace the list (add a task,
 set one field of the tasks with a given id, empty the trash). Every
 operation takes the current list and returns the next one.
 */
module Todos {
  import Seqs

  /** One task. `id` is never changed after creation; `removed` marks a task
      that sits in the trash (soft-deleted) but is still in the list. */
  datatype Todo = Todo(value: string, id: int, checked: bool, removed: bool)

  /** The view selected in the drop-down. */
  datatype Filter = All | Checked | Unchecked | Removed

  /** A key of a task together with a new value of that key's type. Only the
      three mutable keys appear: the id is read-only. */
  datatype Update = SetValue(text: string) | SetChecked(flag: bool) | SetRemoved(flag: bool)

  /** Whether view `f` shows task `t`. */
  predicate Shows(f: Filter, t: Todo)
  {
    match f
    case All => !t.removed
    case Checked => t.checked && !t.removed
    case Unchecked => !t.checked && !t.removed
    case Removed => t.removed
  }

  /** The tasks displayed under view `f`. */
  function View(todos: seq<Todo>, f: Filter): (r: seq<Todo>)
    ensures forall i :: 0 <= i < |r| ==> Shows(f, r[i]) && r[i] in todos
    ensures forall i :: 0 <= i < |todos| && Shows(f, todos[i]) ==> todos[i] in r
    ensures Seqs.IsSubsequence(r, todos)
  {
    Seqs.Filter(todos, t => Shows(f, t))
  }

  /** The ids occurring in the list. */
  function Ids(todos: seq<Todo>): set<int>
  {
    set t | t in todos :: t.id
  }

  /** No two positions of the list carry the same id. */
  predicate UniqueIds(todos: seq<Todo>)
  {
    forall i, j :: 0 <= i < j < |todos| ==> todos[i].id != todos[j].id
  }

  /** Submitting `text`: nothing happens for empty text; otherwise a fresh,
      unchecked task that is not in the trash goes to the front. `id` stands
      for the clock reading taken at submission. */
  function Add(todos: seq<Todo>, text: string, id: int): (r: seq<Todo>)
    ensures text == "" ==> r == todos
    ensures text != "" ==> |r| == |todos| + 1 && r[1..] == todos
    ensures text != "" ==> r[0].value == text && r[0].id == id && !r[0].checked && !r[0].removed
    ensures UniqueIds(todos) && id !in Ids(todos) ==> UniqueIds(r)
  {
    if text == "" then todos
    else [Todo(text, id, false, false)] + todos
  }

  /** Both updates name the same key of a task. */
  predicate SameKey(u: Update, v: Update)
  {
    (u.SetValue? && v.SetValue?) || (u.SetChecked? && v.SetChecked?) || (u.SetRemoved? && v.SetRemoved?)
  }

  /** Task `t` already holds the value `u` would write. */
  predicate Holds(t: Todo, u: Update)
  {
    match u
    case SetValue(text) => t.value == text
    case SetChecked(b) => t.checked == b
    case SetRemoved(b) => t.removed == b
  }

  /** Task `t` with the key named by `u` overwritten: afterwards the task
      holds the new value, keeps its id, and agrees with `t` on every other
      key; writing a value the task already holds changes nothing. */
  function Apply(t: Todo, u: Update): (r: Todo)
    ensures r.id == t.id
    ensures Holds(r, u)
    ensures forall v :: !SameKey(u, v) ==> (Holds(r, v) <==> Holds(t, v))
    ensures Holds(t, u) ==> r == t
  {
    match u
    case SetValue(text) => t.(value := text)
    case SetChecked(b) => t.(checked := b)
    case SetRemoved(b) => t.(removed := b)
  }

  /** Every task whose id is `id` gets the key named by `u` overwritten; the
      rest of the list is returned as it was. */
  function SetField(todos: seq<Todo>, id: int, u: Update): (r: seq<Todo>)
    ensures |r| == |todos|
    ensures forall i :: 0 <= i < |r| ==> r[i].id == todos[i].id
    ensures forall i :: 0 <= i < |r| && todos[i].id != id ==> r[i] == todos[i]
    ensures forall i :: 0 <= i < |r| && todos[i].id == id ==>
              && r[i].value == (if u.SetValue? then u.text else todos[i].value)
              && r[i].checked == (if u.SetChecked? then u.flag else todos[i].checked)
              && r[i].removed == (if u.SetRemoved? then u.flag else todos[i].removed)
    ensures id !in Ids(todos) ==> r == todos
  {
    seq(|todos|, i requires 0 <= i < |todos| => if todos[i].id == id then Apply(todos[i], u) else todos[i])
  }

  /** Emptying the trash: the tasks not marked removed, in their order. */
  function Purge(todos: seq<Todo>): (r: seq<Todo>)
    ensures forall i :: 0 <= i < |r| ==> !r[i].removed && r[i] in todos
    ensures forall i :: 0 <= i < |todos| && !todos[i].removed ==> todos[i] in r
    ensures Seqs.IsSubsequence(r, todos)
  {
    Seqs.Filter(todos, (t: Todo) => !t.removed)
  }
}
