/**
  The task list of the `useTasks` hook (`hooks/useTasks.ts`). Every operation
  replaces the list with a `map`, `filter` or spread of the old one. Only the
  local branch of each operation is modelled: the one the hook also takes when
  the server call fails, and whose result the server is meant to echo.
*/
module TaskHook {
  import opened Common
  import opened Seqs
  import opened Records

  /** `task => task.id === id` */
  function HasId(id: string): Task -> bool {
    (t: Task) => t.id == id
  }

  /** `task => task.id !== id` */
  function OtherThan(id: string): Task -> bool {
    (t: Task) => t.id != id
  }

  /** No two tasks share an id (ids come from `crypto.randomUUID`). */
  predicate UniqueIds(ts: seq<Task>) {
    forall i, j :: 0 <= i < j < |ts| ==> ts[i].id != ts[j].id
  }

  /** Some task carries the id. */
  predicate Known(ts: seq<Task>, id: string) {
    exists i :: 0 <= i < |ts| && ts[i].id == id
  }

  lemma UniqueIdsPickOne(ts: seq<Task>, id: string)
    requires UniqueIds(ts)
    ensures AtMostOne(ts, HasId(id))
  {
    forall i, j | 0 <= i < |ts| && 0 <= j < |ts| && HasId(id)(ts[i]) && HasId(id)(ts[j])
      ensures i == j
    {
    }
  }

  /** The task `addTask` builds: not completed, no pomodoros, the rest from the arguments. */
  function NewTask(id: string, title: string, priority: Priority, note: string, createdAt: string,
                   categoryId: string): (t: Task)
    ensures !t.completed && t.pomodoroCount == 0
    ensures t.id == id && t.title == title && t.priority == priority && t.note == note
    ensures t.createdAt == createdAt && t.categoryId == categoryId
  {
    Task(id, title, false, priority, note, createdAt, 0, categoryId)
  }

  function Flip(t: Task): Task {
    t.(completed := !t.completed)
  }

  function Bump(t: Task): Task {
    t.(pomodoroCount := t.pomodoroCount + 1)
  }

  /** The list after `toggleTask(id)`. */
  function Toggled(ts: seq<Task>, id: string): seq<Task> {
    UpdateWhere(ts, HasId(id), Flip)
  }

  /** The list after `incrementPomodoro(id)`. */
  function Incremented(ts: seq<Task>, id: string): seq<Task> {
    UpdateWhere(ts, HasId(id), Bump)
  }

  /** The list after `updateTask(id, u)`. */
  function Updated(ts: seq<Task>, id: string, u: TaskPatch): seq<Task> {
    UpdateWhere(ts, HasId(id), t => Merge(t, u))
  }

  /** The list after `deleteTask(id)`: every task with that id is gone, the others stay in order. */
  function Removed(ts: seq<Task>, id: string): (r: seq<Task>)
    ensures forall i :: 0 <= i < |r| ==> r[i].id != id && r[i] in ts
    ensures forall i :: 0 <= i < |ts| && ts[i].id != id ==> ts[i] in r
  {
    Filter(ts, OtherThan(id))
  }

  /**
    With unique ids, an update by id changes the one task with that id, by
    `f`, and leaves the length, the order and every other task as they were.
  */
  lemma UpdateOnlyThatTask(ts: seq<Task>, id: string, f: Task -> Task)
    requires UniqueIds(ts)
    ensures |UpdateWhere(ts, HasId(id), f)| == |ts|
    ensures forall i :: 0 <= i < |ts| ==>
      UpdateWhere(ts, HasId(id), f)[i] == if ts[i].id == id then f(ts[i]) else ts[i]
  {
    UniqueIdsPickOne(ts, id);
    UpdateWhereSingle(ts, HasId(id), f);
  }

  /** Toggling an unknown id changes nothing; with unique ids, toggling flips exactly that task. */
  lemma ToggleFlipsOne(ts: seq<Task>, id: string)
    ensures !Known(ts, id) ==> Toggled(ts, id) == ts
    ensures UniqueIds(ts) ==> |Toggled(ts, id)| == |ts|
    ensures UniqueIds(ts) ==> forall i :: 0 <= i < |ts| ==>
      Toggled(ts, id)[i] == if ts[i].id == id then ts[i].(completed := !ts[i].completed) else ts[i]
  {
    if UniqueIds(ts) {
      UpdateOnlyThatTask(ts, id, Flip);
    }
  }

  /** With unique ids, toggling the same task twice restores the list. */
  lemma ToggleTwice(ts: seq<Task>, id: string)
    requires UniqueIds(ts)
    ensures Toggled(Toggled(ts, id), id) == ts
  {
    var once := Toggled(ts, id);
    ToggleFlipsOne(ts, id);
    assert UniqueIds(once) by {
      assert forall i :: 0 <= i < |ts| ==> once[i].id == ts[i].id;
    }
    ToggleFlipsOne(once, id);
  }

  /** Deleting is idempotent, and deleting an unknown id changes nothing. */
  lemma DeleteTwice(ts: seq<Task>, id: string)
    ensures Removed(Removed(ts, id), id) == Removed(ts, id)
    ensures !Known(ts, id) ==> Removed(ts, id) == ts
  {
    FilterIdempotent(ts, OtherThan(id));
    if !Known(ts, id) {
      FilterKeepsAll(ts, OtherThan(id));
    }
  }

  /**
    Incrementing an unknown id changes nothing; with unique ids it adds one
    pomodoro to exactly that task.
  */
  lemma IncrementBumpsOne(ts: seq<Task>, id: string)
    ensures !Known(ts, id) ==> Incremented(ts, id) == ts
    ensures UniqueIds(ts) ==> |Incremented(ts, id)| == |ts|
    ensures UniqueIds(ts) ==> forall i :: 0 <= i < |ts| ==>
      Incremented(ts, id)[i] == if ts[i].id == id then ts[i].(pomodoroCount := ts[i].pomodoroCount + 1) else ts[i]
  {
    if UniqueIds(ts) {
      UpdateOnlyThatTask(ts, id, Bump);
    }
  }

  /** Updating an unknown id changes nothing; with unique ids the patch is spread over exactly that task. */
  lemma UpdateMergesOne(ts: seq<Task>, id: string, u: TaskPatch)
    ensures !Known(ts, id) ==> Updated(ts, id, u) == ts
    ensures UniqueIds(ts) ==> |Updated(ts, id, u)| == |ts|
    ensures UniqueIds(ts) ==> forall i :: 0 <= i < |ts| ==>
      Updated(ts, id, u)[i] == if ts[i].id == id then Merge(ts[i], u) else ts[i]
  {
    if UniqueIds(ts) {
      UpdateOnlyThatTask(ts, id, t => Merge(t, u));
    }
  }

  /** The pomodoros recorded over all tasks. */
  function TotalPomodoros(ts: seq<Task>): int {
    if ts == [] then 0 else ts[0].pomodoroCount + TotalPomodoros(ts[1..])
  }

  /** Two lists that differ only at `k`, where one pomodoro was added, differ by one in total. */
  lemma {:induction false} TotalOneMore(ts: seq<Task>, r: seq<Task>, k: nat)
    requires |r| == |ts| && k < |ts|
    requires forall i :: 0 <= i < |ts| && i != k ==> r[i] == ts[i]
    requires r[k].pomodoroCount == ts[k].pomodoroCount + 1
    ensures TotalPomodoros(r) == TotalPomodoros(ts) + 1
  {
    if k == 0 {
      assert r[1..] == ts[1..];
    } else {
      TotalOneMore(ts[1..], r[1..], k - 1);
    }
  }

  /**
    A finished work session with unique ids records exactly one pomodoro when
    its task is known and none otherwise.
  */
  lemma IncrementAddsOnePomodoro(ts: seq<Task>, id: string)
    requires UniqueIds(ts)
    ensures TotalPomodoros(Incremented(ts, id)) == TotalPomodoros(ts) + if Known(ts, id) then 1 else 0
  {
    IncrementBumpsOne(ts, id);
    if Known(ts, id) {
      var k :| 0 <= k < |ts| && ts[k].id == id;
      TotalOneMore(ts, Incremented(ts, id), k);
    }
  }

  /** The hook's state: the task list. */
  class TaskStore {
    var tasks: seq<Task>

    constructor ()
      ensures tasks == []
    {
      tasks := [];
    }

    /** `addTask`: the new task goes in front; `categoryId` defaults to `'default'`. */
    method AddTask(id: string, createdAt: string, title: string, priority: Priority, note: string,
                   categoryId: string := DefaultCategoryId)
      modifies this
      ensures tasks == [NewTask(id, title, priority, note, createdAt, categoryId)] + old(tasks)
      ensures |tasks| == |old(tasks)| + 1 && tasks[1..] == old(tasks)
    {
      var newTask := Task(id, title, false, priority, note, createdAt, 0, categoryId);
      tasks := [newTask] + tasks;
    }

    /** `toggleTask`: find the task, flip its `completed`, put the copy in place of every task with that id. */
    method ToggleTask(id: string)
      modifies this
      ensures tasks == Toggled(old(tasks), id)
    {
      var t := FindFirst(tasks, HasId(id));
      if t.None? {
        return;
      }
      var updated := t.value.(completed := !t.value.completed);
      assert updated == Flip(t.value);
      tasks := Replace(tasks, HasId(id), updated);
    }

    /** `deleteTask`: both branches keep the tasks with another id. */
    method DeleteTask(id: string)
      modifies this
      ensures tasks == Removed(old(tasks), id)
    {
      tasks := Filter(tasks, OtherThan(id));
    }

    /** `incrementPomodoro`: one more pomodoro on the task with that id. */
    method IncrementPomodoro(id: string)
      modifies this
      ensures tasks == Incremented(old(tasks), id)
    {
      var t := FindFirst(tasks, HasId(id));
      if t.None? {
        return;
      }
      var updated := t.value.(pomodoroCount := t.value.pomodoroCount + 1);
      assert updated == Bump(t.value);
      tasks := Replace(tasks, HasId(id), updated);
    }

    /** `updateTask`: spread the patch over the task with that id. */
    method UpdateTask(id: string, updates: TaskPatch)
      modifies this
      ensures tasks == Updated(old(tasks), id, updates)
    {
      var t := FindFirst(tasks, HasId(id));
      if t.None? {
        return;
      }
      var merged := Merge(t.value, updates);
      tasks := Replace(tasks, HasId(id), merged);
    }
  }
}
