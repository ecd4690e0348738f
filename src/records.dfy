/** The records the front end keeps in its lists (`types/task.ts`). */
module Records {
  import opened Common

  datatype Priority = High | Medium | Low

  datatype Task = Task(
    id: string,
    title: string,
    completed: bool,
    priority: Priority,
    note: string,
    createdAt: string,
    pomodoroCount: int,
    categoryId: string)

  datatype Category = Category(id: string, name: string, color: string, createdAt: string)

  /** `Partial<Task>`: each field either present (`Some`) or absent (`None`). */
  datatype TaskPatch = TaskPatch(
    id: Option<string>,
    title: Option<string>,
    completed: Option<bool>,
    priority: Option<Priority>,
    note: Option<string>,
    createdAt: Option<string>,
    pomodoroCount: Option<int>,
    categoryId: Option<string>)

  /** `Partial<Category>`. */
  datatype CategoryPatch = CategoryPatch(
    id: Option<string>,
    name: Option<string>,
    color: Option<string>,
    createdAt: Option<string>)

  /** The id of the category that cannot be deleted and that orphaned tasks move to. */
  const DefaultCategoryId: string := "default"

  /** The patch `{ categoryId }`. */
  function MoveTo(categoryId: string): TaskPatch {
    TaskPatch(None, None, None, None, None, None, None, Some(categoryId))
  }

  /** `{ ...t, ...u }`: the fields present in `u` replace those of `t`. */
  function Merge(t: Task, u: TaskPatch): Task {
    Task(
      u.id.GetOr(t.id),
      u.title.GetOr(t.title),
      u.completed.GetOr(t.completed),
      u.priority.GetOr(t.priority),
      u.note.GetOr(t.note),
      u.createdAt.GetOr(t.createdAt),
      u.pomodoroCount.GetOr(t.pomodoroCount),
      u.categoryId.GetOr(t.categoryId))
  }

  /** `{ ...u, ...v }` for patches: the later one wins where both have a field. */
  function Then(u: TaskPatch, v: TaskPatch): TaskPatch {
    TaskPatch(
      if v.id.Some? then v.id else u.id,
      if v.title.Some? then v.title else u.title,
      if v.completed.Some? then v.completed else u.completed,
      if v.priority.Some? then v.priority else u.priority,
      if v.note.Some? then v.note else u.note,
      if v.createdAt.Some? then v.createdAt else u.createdAt,
      if v.pomodoroCount.Some? then v.pomodoroCount else u.pomodoroCount,
      if v.categoryId.Some? then v.categoryId else u.categoryId)
  }

  /**
    Spreading two patches one after the other is spreading their combination;
    in particular spreading the same patch twice is spreading it once.
  */
  lemma MergeThen(t: Task, u: TaskPatch, v: TaskPatch)
    ensures Merge(Merge(t, u), v) == Merge(t, Then(u, v))
    ensures Merge(Merge(t, u), u) == Merge(t, u)
  {
  }

  /** Moving a task to a category changes its category and nothing else. */
  lemma MoveToChangesOnlyCategory(t: Task, categoryId: string)
    ensures Merge(t, MoveTo(categoryId)) == t.(categoryId := categoryId)
  {
  }

  /** `{ ...c, ...u }` for categories. */
  function MergeCategory(c: Category, u: CategoryPatch): Category {
    Category(u.id.GetOr(c.id), u.name.GetOr(c.name), u.color.GetOr(c.color), u.createdAt.GetOr(c.createdAt))
  }
}
