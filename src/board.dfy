/**
  The main page (`pages/Pomodo.tsx`): the priority filter, the grouping of
  tasks by category, the link from the timer to the active task, the
  deletion of a category and the active-task picker.
*/
module Board {
  import opened Common
  import opened Seqs
  import opened Records
  import opened TaskHook
  import opened CategoryHook
  import opened Timer

  /** The priority selector: every task, or one priority. */
  datatype PriorityFilter = All | Only(priority: Priority)

  /** `task => selectedPriority === 'all' || task.priority === selectedPriority` */
  function Selects(sel: PriorityFilter): Task -> bool {
    (t: Task) => sel.All? || t.priority == sel.priority
  }

  /**
    `filteredTasks`: `'all'` keeps the whole list; a priority keeps exactly the
    tasks of that priority.
  */
  function FilteredTasks(ts: seq<Task>, sel: PriorityFilter): (r: seq<Task>)
    ensures sel.All? ==> r == ts
    ensures forall i :: 0 <= i < |r| ==> r[i] in ts && (sel.Only? ==> r[i].priority == sel.priority)
    ensures forall i :: 0 <= i < |ts| && (sel.All? || ts[i].priority == sel.priority) ==> ts[i] in r
  {
    if sel.All? then
      FilterKeepsAll(ts, Selects(sel));
      Filter(ts, Selects(sel))
    else
      Filter(ts, Selects(sel))
  }

  /** The filter keeps the relative order of the tasks it keeps. */
  lemma FilteredKeepsOrder(a: seq<Task>, b: seq<Task>, sel: PriorityFilter)
    ensures FilteredTasks(a + b, sel) == FilteredTasks(a, sel) + FilteredTasks(b, sel)
  {
    FilterConcat(a, b, Selects(sel));
  }

  /** `task => task.categoryId === k` */
  function InCategory(k: string): Task -> bool {
    (t: Task) => t.categoryId == k
  }

  /** The tasks of category `k`, in list order. */
  function Bucket(ts: seq<Task>, k: string): seq<Task> {
    Filter(ts, InCategory(k))
  }

  /** Some task in `ts` names category `k`. */
  predicate Mentioned(ts: seq<Task>, k: string) {
    exists i :: 0 <= i < |ts| && ts[i].categoryId == k
  }

  /**
    What `tasksByCategory` holds: a bucket for every category, even an empty
    one, and for every category id a task names; each bucket holds exactly the
    tasks of its category, in list order; no other key.
  */
  ghost predicate GroupedBy(grouped: map<string, seq<Task>>, categories: seq<Category>, ts: seq<Task>) {
    && (forall i :: 0 <= i < |categories| ==> categories[i].id in grouped)
    && (forall i :: 0 <= i < |ts| ==> ts[i].categoryId in grouped)
    && (forall k :: k in grouped ==> grouped[k] == Bucket(ts, k))
    && (forall k :: k in grouped ==> HasCategory(categories, k) || Mentioned(ts, k))
  }

  lemma BucketStep(ts: seq<Task>, j: nat, k: string)
    requires j < |ts|
    ensures Bucket(ts[..j + 1], k) == Bucket(ts[..j], k) + if ts[j].categoryId == k then [ts[j]] else []
  {
    assert ts[..j + 1] == ts[..j] + [ts[j]];
    FilterConcat(ts[..j], [ts[j]], InCategory(k));
    assert Filter([ts[j]], InCategory(k)) == (if ts[j].categoryId == k then [ts[j]] else []) + Filter([], InCategory(k));
  }

  /** `GroupedBy` over the first `j` tasks. */
  ghost predicate GroupedUpTo(grouped: map<string, seq<Task>>, categories: seq<Category>, ts: seq<Task>, j: nat)
    requires j <= |ts|
  {
    GroupedBy(grouped, categories, ts[..j])
  }

  /** The map with task `ts[j]` appended to its bucket, a bucket being opened when it has none. */
  function AddToBucket(grouped: map<string, seq<Task>>, t: Task): map<string, seq<Task>> {
    grouped[t.categoryId := (if t.categoryId in grouped then grouped[t.categoryId] else []) + [t]]
  }

  /** The bucket of one key after the next task is added. */
  lemma GroupStepKey(categories: seq<Category>, ts: seq<Task>, j: nat, grouped: map<string, seq<Task>>, k: string)
    requires j < |ts|
    requires GroupedBy(grouped, categories, ts[..j])
    requires k in AddToBucket(grouped, ts[j])
    ensures AddToBucket(grouped, ts[j])[k] == Bucket(ts[..j + 1], k)
    ensures HasCategory(categories, k) || Mentioned(ts[..j + 1], k)
  {
    var t := ts[j];
    BucketStep(ts, j, k);
    if k == t.categoryId {
      if t.categoryId !in grouped {
        FilterKeepsNone(ts[..j], InCategory(t.categoryId));
      }
      assert ts[..j + 1][j] == t;
    } else if Mentioned(ts[..j], k) {
      var m :| 0 <= m < j && ts[..j][m].categoryId == k;
      assert ts[..j + 1][m] == ts[..j][m];
    }
  }

  /** Appending the next task to its bucket extends the grouping by that task. */
  lemma GroupStep(categories: seq<Category>, ts: seq<Task>, j: nat, grouped: map<string, seq<Task>>)
    requires j < |ts|
    requires GroupedUpTo(grouped, categories, ts, j)
    ensures GroupedUpTo(AddToBucket(grouped, ts[j]), categories, ts, j + 1)
  {
    var next := AddToBucket(grouped, ts[j]);
    var prefix := ts[..j + 1];
    forall k | k in next
      ensures next[k] == Bucket(prefix, k)
      ensures HasCategory(categories, k) || Mentioned(prefix, k)
    {
      GroupStepKey(categories, ts, j, grouped, k);
    }
    forall m | 0 <= m < j + 1 ensures prefix[m].categoryId in next {
      if m < j {
        assert prefix[m] == ts[..j][m];
      }
    }
  }

  /**
    `tasksByCategory`: one empty bucket per category, then each task appended
    to the bucket of its category id, a new bucket being opened for an id no
    category has.
  */
  method GroupByCategory(categories: seq<Category>, filtered: seq<Task>) returns (grouped: map<string, seq<Task>>)
    ensures GroupedBy(grouped, categories, filtered)
  {
    grouped := map[];
    for i := 0 to |categories|
      invariant forall c :: 0 <= c < i ==> categories[c].id in grouped
      invariant forall k :: k in grouped ==> grouped[k] == [] && HasCategory(categories, k)
    {
      grouped := grouped[categories[i].id := []];
    }
    assert GroupedUpTo(grouped, categories, filtered, 0);
    for j := 0 to |filtered|
      invariant GroupedUpTo(grouped, categories, filtered, j)
    {
      GroupStep(categories, filtered, j, grouped);
      grouped := AddToBucket(grouped, filtered[j]);
    }
    assert filtered[..|filtered|] == filtered;
  }

  /**
    Rendering: one section per known category, in category order, showing
    that category's bucket (or nothing when it has none).
  */
  function Sections(categories: seq<Category>, grouped: map<string, seq<Task>>): seq<seq<Task>> {
    seq(|categories|, i requires 0 <= i < |categories| =>
      if categories[i].id in grouped then grouped[categories[i].id] else [])
  }

  /**
    Each rendered section shows exactly the tasks of its category in list
    order, and a task is rendered exactly when it passed the filter and its
    category is a known one: a task whose category is unknown has a bucket
    but is never shown.
  */
  lemma SectionsShowKnownCategories(categories: seq<Category>, ts: seq<Task>,
                                    grouped: map<string, seq<Task>>, t: Task)
    requires GroupedBy(grouped, categories, ts)
    ensures |Sections(categories, grouped)| == |categories|
    ensures forall i :: 0 <= i < |categories| ==> Sections(categories, grouped)[i] == Bucket(ts, categories[i].id)
    ensures (exists i :: 0 <= i < |categories| && t in Sections(categories, grouped)[i]) <==>
            t in ts && HasCategory(categories, t.categoryId)
  {
    var sections := Sections(categories, grouped);
    if t in ts && HasCategory(categories, t.categoryId) {
      KnownTaskShown(categories, ts, grouped, t);
    }
    if exists i :: 0 <= i < |categories| && t in sections[i] {
      var i :| 0 <= i < |categories| && t in sections[i];
      ShownTaskKnown(categories, ts, grouped, t, i);
    }
  }

  lemma KnownTaskShown(categories: seq<Category>, ts: seq<Task>, grouped: map<string, seq<Task>>, t: Task)
    requires GroupedBy(grouped, categories, ts) && t in ts && HasCategory(categories, t.categoryId)
    ensures exists i :: 0 <= i < |categories| && t in Sections(categories, grouped)[i]
  {
    var i :| 0 <= i < |categories| && categories[i].id == t.categoryId;
    var m :| 0 <= m < |ts| && ts[m] == t;
    assert InCategory(categories[i].id)(ts[m]);
    assert t in Sections(categories, grouped)[i];
  }

  lemma ShownTaskKnown(categories: seq<Category>, ts: seq<Task>, grouped: map<string, seq<Task>>, t: Task, i: int)
    requires GroupedBy(grouped, categories, ts) && 0 <= i < |categories| && t in Sections(categories, grouped)[i]
    ensures t in ts && HasCategory(categories, t.categoryId)
  {
    var k := categories[i].id;
    assert k in grouped && grouped[k] == Bucket(ts, k);
    var section := Bucket(ts, k);
    assert t in section;
    var m :| 0 <= m < |section| && section[m] == t;
    assert section[m] in ts && InCategory(k)(section[m]);
  }


  /** The sizes of the buckets of `keys`, added up. */
  function BucketSizes(keys: seq<string>, ts: seq<Task>): nat {
    if keys == [] then 0 else |Bucket(ts, keys[0])| + BucketSizes(keys[1..], ts)
  }

  lemma {:induction false} BucketSizesCons(keys: seq<string>, t: Task, ts: seq<Task>)
    ensures BucketSizes(keys, [t] + ts) == multiset(keys)[t.categoryId] + BucketSizes(keys, ts)
  {
    if keys != [] {
      BucketSizesCons(keys[1..], t, ts);
      assert keys == [keys[0]] + keys[1..];
      assert ([t] + ts)[1..] == ts;
    }
  }

  /**
    Every task lands in exactly one bucket: over any list of distinct keys that
    covers every task's category, the bucket sizes add up to the number of tasks.
  */
  lemma {:induction false} BucketsPartition(keys: seq<string>, ts: seq<Task>)
    requires Distinct(keys)
    requires forall i :: 0 <= i < |ts| ==> ts[i].categoryId in keys
    ensures BucketSizes(keys, ts) == |ts|
  {
    if ts == [] {
      BucketSizesEmpty(keys);
    } else {
      BucketsPartition(keys, ts[1..]);
      assert ts == [ts[0]] + ts[1..];
      BucketSizesCons(keys, ts[0], ts[1..]);
      var k :| 0 <= k < |keys| && keys[k] == ts[0].categoryId;
    }
  }

  lemma {:induction false} BucketSizesEmpty(keys: seq<string>)
    ensures BucketSizes(keys, []) == 0
  {
    if keys != [] {
      BucketSizesEmpty(keys[1..]);
    }
  }

  /** `t => !t.completed` */
  function Incomplete(): Task -> bool {
    (t: Task) => !t.completed
  }

  /**
    The active-task picker: at most five tasks, all not completed, the first
    ones of the filtered list in its order, and all of them when there are
    fewer than five.
  */
  function ActiveChoices(filtered: seq<Task>): (r: seq<Task>)
    ensures |r| <= 5 && |r| <= |Filter(filtered, Incomplete())|
    ensures forall i :: 0 <= i < |r| ==> !r[i].completed && r[i] in filtered
    ensures r == Filter(filtered, Incomplete())[..|r|]
    ensures |r| == 5 || r == Filter(filtered, Incomplete())
  {
    Take(Filter(filtered, Incomplete()), 5)
  }

  /** `if (activeTaskId)`: null and the empty string are both false. */
  predicate Designated(activeTaskId: Option<string>) {
    activeTaskId.Some? && activeTaskId.value != ""
  }

  /** The intended effect of deleting category `c` on the task list: its tasks move to `'default'`. */
  function Reassigned(ts: seq<Task>, c: string): (r: seq<Task>)
    ensures |r| == |ts|
  {
    seq(|ts|, i requires 0 <= i < |ts| =>
      if ts[i].categoryId == c then Merge(ts[i], MoveTo(DefaultCategoryId)) else ts[i])
  }

  /**
    Deleting a category leaves no task behind in it, changes nothing but the
    category of its tasks, and leaves the tasks of other categories alone; so
    when `'default'` exists, each task that was shown before is still shown
    after the category is gone, whatever the other tasks' categories.
  */
  lemma ReassignedKeepsTasksVisible(ts: seq<Task>, cs: seq<Category>, c: string)
    ensures forall i :: 0 <= i < |ts| && ts[i].categoryId != c ==> Reassigned(ts, c)[i] == ts[i]
    ensures forall i :: 0 <= i < |ts| && ts[i].categoryId == c ==>
      Reassigned(ts, c)[i] == ts[i].(categoryId := DefaultCategoryId)
    ensures forall i :: 0 <= i < |ts| && HasCategory(cs, DefaultCategoryId) && HasCategory(cs, ts[i].categoryId) ==>
      HasCategory(Deleted(cs, c), Reassigned(ts, c)[i].categoryId)
  {
    var r := Reassigned(ts, c);
    DeletedKeepsDefault(cs, c);
    forall i | 0 <= i < |ts| && HasCategory(cs, DefaultCategoryId) && HasCategory(cs, ts[i].categoryId)
      ensures HasCategory(Deleted(cs, c), r[i].categoryId)
    {
      if ts[i].categoryId != c {
        var k :| 0 <= k < |cs| && cs[k].id == ts[i].categoryId;
        var d := Deleted(cs, c);
        var j :| 0 <= j < |d| && d[j] == cs[k];
      }
    }
  }

  /**
    As written, `handleDeleteCategory` starts one `updateTask` per task of the
    category, and each maps the list captured when the handler ran, not the
    result of the previous call: the state that remains is the last call's.
  */
  function StaleUpdates(snapshot: seq<Task>, rest: seq<Task>, c: string, state: seq<Task>): (r: seq<Task>)
    requires |state| == |snapshot|
    ensures |r| == |snapshot|
    decreases |rest|
  {
    if rest == [] then state
    else
      var next := if rest[0].categoryId == c then Updated(snapshot, rest[0].id, MoveTo(DefaultCategoryId)) else state;
      StaleUpdates(snapshot, rest[1..], c, next)
  }

  /** The first `n` tasks of `snapshot` reassigned one by one, the rest as they were. */
  predicate ReassignedUpTo(snapshot: seq<Task>, ts: seq<Task>, c: string, n: int) {
    && |ts| == |snapshot|
    && forall j :: 0 <= j < |snapshot| ==>
         ts[j] == if j < n && snapshot[j].categoryId == c then Merge(snapshot[j], MoveTo(DefaultCategoryId)) else snapshot[j]
  }

  /** One more sequential `updateTask` call over the current list reassigns one more task. */
  lemma ReassignStep(snapshot: seq<Task>, before: seq<Task>, c: string, i: int)
    requires UniqueIds(snapshot) && 0 <= i < |snapshot| && ReassignedUpTo(snapshot, before, c, i)
    ensures ReassignedUpTo(snapshot,
      if snapshot[i].categoryId == c then Updated(before, snapshot[i].id, MoveTo(DefaultCategoryId)) else before,
      c, i + 1)
  {
    if snapshot[i].categoryId == c {
      assert forall j :: 0 <= j < |snapshot| ==> before[j].id == snapshot[j].id;
      assert UniqueIds(before);
      UpdateMergesOne(before, snapshot[i].id, MoveTo(DefaultCategoryId));
    }
  }

  /** The task list `handleDeleteCategory` leaves as written. */
  function StaleReassigned(snapshot: seq<Task>, c: string): seq<Task> {
    StaleUpdates(snapshot, snapshot, c, snapshot)
  }

  /**
    Two tasks in category "work": as written, deleting "work" moves only the
    second to `'default'`; the first keeps the deleted category and disappears
    from the page, while the intended effect moves both.
  */
  lemma StaleCallsLeaveOrphan()
    ensures var a := Task("a", "write", false, High, "", "t1", 0, "work");
            var b := Task("b", "read", false, Low, "", "t2", 0, "work");
            && StaleReassigned([a, b], "work")[0].categoryId == "work"
            && StaleReassigned([a, b], "work")[1].categoryId == DefaultCategoryId
            && Reassigned([a, b], "work")[0].categoryId == DefaultCategoryId
            && Reassigned([a, b], "work")[1].categoryId == DefaultCategoryId
  {
    var a := Task("a", "write", false, High, "", "t1", 0, "work");
    var b := Task("b", "read", false, Low, "", "t2", 0, "work");
    var ts := [a, b];
    assert UniqueIds(ts);
    UpdateMergesOne(ts, "b", MoveTo(DefaultCategoryId));
    assert ts[1..] == [b] && [b][1..] == [];
    var afterA := Updated(ts, "a", MoveTo(DefaultCategoryId));
    assert StaleReassigned(ts, "work") == StaleUpdates(ts, [b], "work", afterA);
    assert StaleUpdates(ts, [b], "work", afterA) == StaleUpdates(ts, [], "work", Updated(ts, "b", MoveTo(DefaultCategoryId)));
    assert StaleReassigned(ts, "work") == Updated(ts, "b", MoveTo(DefaultCategoryId));
  }

  /** The page: its two hooks, the timer, and its own two pieces of state. */
  class Board {
    const tasks: TaskStore
    const categories: CategoryStore
    const timer: PomodoroTimer
    var selectedPriority: PriorityFilter
    var activeTaskId: Option<string>

    constructor (loadedAt: string)
      ensures fresh(tasks) && fresh(categories) && fresh(timer)
      ensures tasks.tasks == [] && categories.categories == DefaultCategories(loadedAt)
      ensures timer.Valid() && timer.mode == Work && timer.seconds == 1500 && !timer.isActive
      ensures timer.sessionsCompleted == 0
      ensures timer.workDuration == 25 && timer.shortBreakDuration == 5 && timer.longBreakDuration == 15
      ensures selectedPriority == All && activeTaskId == None
    {
      tasks := new TaskStore();
      categories := new CategoryStore(loadedAt);
      timer := new PomodoroTimer();
      selectedPriority := All;
      activeTaskId := None;
    }

    /** A picker button: the chosen task becomes the active one. */
    method ChooseActiveTask(id: string)
      modifies this
      ensures activeTaskId == Some(id) && selectedPriority == old(selectedPriority)
    {
      activeTaskId := Some(id);
    }

    /**
      `handlePomodoroComplete`: one more pomodoro on the active task when one is
      designated, nothing otherwise.
    */
    method HandlePomodoroComplete()
      modifies tasks
      ensures tasks.tasks == if Designated(activeTaskId) then Incremented(old(tasks.tasks), activeTaskId.value)
                             else old(tasks.tasks)
    {
      if activeTaskId.Some? && activeTaskId.value != "" {
        tasks.IncrementPomodoro(activeTaskId.value);
      }
    }

    /**
      The timer's zero edge with the page's `onComplete`: the pomodoro is
      credited to the active task exactly when a work phase ended and a task
      is designated, and only that task's count changes.
    */
    method CompleteTimerPhase() returns (notified: bool)
      requires timer.Valid()
      modifies timer, tasks
      ensures timer.Valid()
      ensures notified <==> old(timer.seconds) == 0 && old(timer.mode) == Work
      ensures old(timer.seconds) == 0 ==>
        && (timer.mode, timer.sessionsCompleted) == NextPhase(old(timer.mode), old(timer.sessionsCompleted))
        && timer.seconds == timer.Duration(timer.mode) * 60
        && !timer.isActive
      ensures old(timer.seconds) != 0 ==>
        timer.mode == old(timer.mode) && timer.seconds == old(timer.seconds) &&
        timer.isActive == old(timer.isActive) && timer.sessionsCompleted == old(timer.sessionsCompleted)
      ensures timer.workDuration == old(timer.workDuration) && timer.shortBreakDuration == old(timer.shortBreakDuration)
      ensures timer.longBreakDuration == old(timer.longBreakDuration)
      ensures tasks.tasks == if notified && Designated(activeTaskId) then Incremented(old(tasks.tasks), activeTaskId.value)
                             else old(tasks.tasks)
    {
      notified := timer.CompletePhase();
      if notified {
        HandlePomodoroComplete();
      }
    }

    /**
      `handleDeleteCategory`, with the updates applied one after the other:
      every task of the category moves to `'default'` (given unique task ids),
      then the category is deleted unless it is `'default'`.
    */
    method HandleDeleteCategory(categoryId: string)
      modifies tasks, categories
      ensures UniqueIds(old(tasks.tasks)) ==> tasks.tasks == Reassigned(old(tasks.tasks), categoryId)
      ensures categories.categories == Deleted(old(categories.categories), categoryId)
    {
      var snapshot := tasks.tasks;
      for i := 0 to |snapshot|
        invariant categories.categories == old(categories.categories)
        invariant UniqueIds(snapshot) ==> ReassignedUpTo(snapshot, tasks.tasks, categoryId, i)
      {
        ghost var before := tasks.tasks;
        if snapshot[i].categoryId == categoryId {
          tasks.UpdateTask(snapshot[i].id, MoveTo(DefaultCategoryId));
        }
        if UniqueIds(snapshot) {
          ReassignStep(snapshot, before, categoryId, i);
        }
      }
      categories.DeleteCategory(categoryId);
    }
  }
}
