/**
  The JPA entity `Task` (`model/Task.java`) and the DTO it converts to and
  from. Java references that may be `null` are `Option`s.
*/
module TaskEntity {
  import opened Common

  /** Java's `int`. */
  newtype int32 = x: int | -0x8000_0000 <= x < 0x8000_0000

  /** `TaskDto`: the eight fields as they travel over the wire. */
  datatype TaskDto = TaskDto(
    id: Option<string>,
    title: Option<string>,
    completed: bool,
    priority: Option<string>,
    note: Option<string>,
    createdAt: Option<string>,
    pomodoroCount: int32,
    categoryId: Option<string>)

  class Task {
    var id: Option<string>
    var title: Option<string>
    var completed: bool
    var priority: Option<string>
    var note: Option<string>
    var createdAt: Option<string>
    var pomodoroCount: int32
    var categoryId: Option<string>

    /** The default constructor: every reference `null`, `false`, `0`. */
    constructor ()
      ensures ToDto() == TaskDto(None, None, false, None, None, None, 0, None)
    {
      id := None;
      title := None;
      completed := false;
      priority := None;
      note := None;
      createdAt := None;
      pomodoroCount := 0;
      categoryId := None;
    }

    method SetId(id: Option<string>)
      modifies this`id
      ensures ToDto() == old(ToDto()).(id := id)
    {
      this.id := id;
    }

    method SetTitle(title: Option<string>)
      modifies this`title
      ensures ToDto() == old(ToDto()).(title := title)
    {
      this.title := title;
    }

    method SetCompleted(completed: bool)
      modifies this`completed
      ensures ToDto() == old(ToDto()).(completed := completed)
    {
      this.completed := completed;
    }

    method SetPriority(priority: Option<string>)
      modifies this`priority
      ensures ToDto() == old(ToDto()).(priority := priority)
    {
      this.priority := priority;
    }

    method SetNote(note: Option<string>)
      modifies this`note
      ensures ToDto() == old(ToDto()).(note := note)
    {
      this.note := note;
    }

    method SetCreatedAt(createdAt: Option<string>)
      modifies this`createdAt
      ensures ToDto() == old(ToDto()).(createdAt := createdAt)
    {
      this.createdAt := createdAt;
    }

    method SetPomodoroCount(pomodoroCount: int32)
      modifies this`pomodoroCount
      ensures ToDto() == old(ToDto()).(pomodoroCount := pomodoroCount)
    {
      this.pomodoroCount := pomodoroCount;
    }

    method SetCategoryId(categoryId: Option<string>)
      modifies this`categoryId
      ensures ToDto() == old(ToDto()).(categoryId := categoryId)
    {
      this.categoryId := categoryId;
    }

    /** `toDto`: the entity's eight fields, unchanged. */
    function ToDto(): TaskDto
      reads this
    {
      TaskDto(id, title, completed, priority, note, createdAt, pomodoroCount, categoryId)
    }

    /** `fromDto`: a new entity filled by the eight setters; converting it back gives the same DTO. */
    static method FromDto(dto: TaskDto) returns (task: Task)
      ensures fresh(task)
      ensures task.ToDto() == dto
    {
      task := new Task();
      task.SetId(dto.id);
      task.SetTitle(dto.title);
      task.SetCompleted(dto.completed);
      task.SetPriority(dto.priority);
      task.SetNote(dto.note);
      task.SetCreatedAt(dto.createdAt);
      task.SetPomodoroCount(dto.pomodoroCount);
      task.SetCategoryId(dto.categoryId);
    }
  }

  /**
    `Task.fromDto(t.toDto())`: a new entity equal to `t` field for field,
    with `t` itself untouched.
  */
  method Copy(t: Task) returns (c: Task)
    ensures fresh(c)
    ensures c.id == t.id && c.title == t.title && c.completed == t.completed && c.priority == t.priority
    ensures c.note == t.note && c.createdAt == t.createdAt && c.pomodoroCount == t.pomodoroCount
    ensures c.categoryId == t.categoryId
  {
    c := Task.FromDto(t.ToDto());
  }
}
