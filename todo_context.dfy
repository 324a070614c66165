/** The task list shared through the to-do context provider.  Every updater
    maps the previous list to a new one; the provider's state cell is then
    replaced by the result. */
module TodoContext {
  import opened Subsequence

  datatype Task = Task(id: int, text: string, done: bool)

  function Flip(t: Task): Task {
    t.(done := !t.done)
  }

  /** `addTask`: a new open task at the end, identified by the clock reading
      `id` the provider takes at that moment. */
  function Appended(tasks: seq<Task>, text: string, id: int): (r: seq<Task>)
    ensures |r| == |tasks| + 1
    ensures r[..|tasks|] == tasks
    ensures r[|tasks|] == Task(id, text, false)
  {
    tasks + [Task(id, text, false)]
  }

  /** `toggleTask`: flips every task carrying `id`, in place. */
  function Toggled(tasks: seq<Task>, id: int): (r: seq<Task>)
    ensures |r| == |tasks|
    ensures forall i :: 0 <= i < |tasks| ==> r[i] == if tasks[i].id == id then Flip(tasks[i]) else tasks[i]
  {
    if tasks == [] then []
    else [if tasks[0].id == id then Flip(tasks[0]) else tasks[0]] + Toggled(tasks[1..], id)
  }

  /** `deleteTask`: keeps exactly the tasks that do not carry `id`, each as
      often as before and in their original order. */
  function Deleted(tasks: seq<Task>, id: int): (r: seq<Task>)
    ensures forall t :: t in r ==> t.id != id
    ensures forall t: Task :: t.id != id ==> multiset(r)[t] == multiset(tasks)[t]
    ensures IsSubsequence(r, tasks)
  {
    if tasks == [] then []
    else
      var rest := Deleted(tasks[1..], id);
      assert tasks == [tasks[0]] + tasks[1..];
      SubsequenceCons(rest, tasks[0], tasks[1..]);
      if tasks[0].id == id then rest else [tasks[0]] + rest
  }

  /** The two clicks of the integration test: toggling twice restores the list. */
  lemma ToggleTwiceRestores(tasks: seq<Task>, id: int)
    ensures Toggled(Toggled(tasks, id), id) == tasks
  {
  }

  /** Toggling leaves ids and texts alone, so the set of ids never changes. */
  lemma ToggleKeepsIds(tasks: seq<Task>, id: int, i: int)
    requires 0 <= i < |tasks|
    ensures Toggled(tasks, id)[i].id == tasks[i].id
    ensures Toggled(tasks, id)[i].text == tasks[i].text
  {
  }

  /** Deleting an id no task carries leaves the list as it is. */
  lemma {:induction false} DeleteAbsentId(tasks: seq<Task>, id: int)
    requires forall i :: 0 <= i < |tasks| ==> tasks[i].id != id
    ensures Deleted(tasks, id) == tasks
  {
    if tasks != [] {
      DeleteAbsentId(tasks[1..], id);
    }
  }

  /** Deletion distributes over concatenation. */
  lemma {:induction false} DeleteConcat(a: seq<Task>, b: seq<Task>, id: int)
    ensures Deleted(a + b, id) == Deleted(a, id) + Deleted(b, id)
  {
    if a != [] {
      assert (a + b)[1..] == a[1..] + b;
      DeleteConcat(a[1..], b, id);
    } else {
      assert a + b == b;
    }
  }

  /** Deleting the id of a task just added with a fresh id undoes the addition. */
  lemma DeleteUndoesAppend(tasks: seq<Task>, text: string, id: int)
    requires forall i :: 0 <= i < |tasks| ==> tasks[i].id != id
    ensures Deleted(Appended(tasks, text, id), id) == tasks
  {
    DeleteConcat(tasks, [Task(id, text, false)], id);
    DeleteAbsentId(tasks, id);
    assert Deleted([Task(id, text, false)], id) == [];
  }

  /** An id's tasks are gone after deletion; a second deletion changes nothing. */
  lemma DeleteIdempotent(tasks: seq<Task>, id: int)
    ensures Deleted(Deleted(tasks, id), id) == Deleted(tasks, id)
  {
    var r := Deleted(tasks, id);
    assert forall i :: 0 <= i < |r| ==> r[i] in r;
    DeleteAbsentId(r, id);
  }

  /** The provider's state cell and its four updaters; the updater for
      `addTask` also takes the clock reading it uses as the new id. */
  class TodoProvider {
    var tasks: seq<Task>

    constructor ()
      ensures tasks == []
    {
      tasks := [];
    }

    method AddTask(text: string, now: int)
      modifies this
      ensures tasks == Appended(old(tasks), text, now)
    {
      tasks := Appended(tasks, text, now);
    }

    method ToggleTask(id: int)
      modifies this
      ensures tasks == Toggled(old(tasks), id)
    {
      tasks := Toggled(tasks, id);
    }

    method DeleteTask(id: int)
      modifies this
      ensures tasks == Deleted(old(tasks), id)
    {
      tasks := Deleted(tasks, id);
    }

    /** Replaces the list wholesale with the loaded tasks. */
    method LoadInitialTasks(initialTasks: seq<Task>)
      modifies this
      ensures tasks == initialTasks
    {
      tasks := initialTasks;
    }
  }
}
