/**
  The REST controller for tasks (`controller/TaskController.java`) over a
  repository of rows keyed by task id. `UUID.randomUUID()` and `new Date()`
  are parameters.
*/
module TaskApi {
  import opened Common
  import opened Seqs
  import opened TaskEntity
  import opened Repository

  /**
    `a.compareTo(b) <= 0` for Java strings of ASCII characters (such as the
    creation times): character by character, a proper prefix coming first.
  */
  predicate NotAfter(a: string, b: string) {
    if a == [] then true
    else if b == [] then false
    else if a[0] != b[0] then a[0] < b[0]
    else NotAfter(a[1..], b[1..])
  }

  /** Any two strings are ordered one way or the other. */
  lemma {:induction false} NotAfterTotal(a: string, b: string)
    ensures NotAfter(a, b) || NotAfter(b, a)
  {
    if a != [] && b != [] && a[0] == b[0] {
      NotAfterTotal(a[1..], b[1..]);
    }
  }

  /** The order is transitive. */
  lemma {:induction false} NotAfterTransitive(a: string, b: string, c: string)
    requires NotAfter(a, b) && NotAfter(b, c)
    ensures NotAfter(a, c)
  {
    if a != [] && b != [] && c != [] && a[0] == b[0] && b[0] == c[0] {
      NotAfterTransitive(a[1..], b[1..], c[1..]);
    }
  }

  /** The sort key of `list`: the creation time (never missing from a stored row). */
  function Stamp(d: TaskDto): string {
    d.createdAt.GetOr("")
  }

  /**
    Descending `compareTo` order of the creation times: no row is followed by
    one whose stamp compares greater. This is newest first for ISO-8601
    stamps only (see `ServerStampsOutOfOrder`).
  */
  predicate StampsDescending(s: seq<TaskDto>) {
    forall i, j :: 0 <= i < j < |s| ==> NotAfter(Stamp(s[j]), Stamp(s[i]))
  }

  /** One row put into a list in descending stamp order, ahead of any row with the same stamp. */
  function Insert(d: TaskDto, s: seq<TaskDto>): (r: seq<TaskDto>)
    requires StampsDescending(s)
    ensures StampsDescending(r)
    ensures multiset(r) == multiset(s) + multiset{d}
  {
    if s == [] then [d]
    else if NotAfter(Stamp(s[0]), Stamp(d)) then
      InsertAhead(d, s);
      [d] + s
    else
      var rest := Insert(d, s[1..]);
      NotAfterTotal(Stamp(s[0]), Stamp(d));
      assert s == [s[0]] + s[1..];
      forall j | 0 <= j < |rest| ensures NotAfter(Stamp(rest[j]), Stamp(s[0])) {
        assert rest[j] in multiset(rest);
        if rest[j] != d {
          assert rest[j] in multiset(s[1..]);
          var k :| 0 <= k < |s[1..]| && s[1..][k] == rest[j];
          assert s[k + 1] == rest[j];
        }
      }
      [s[0]] + rest
  }

  lemma InsertAhead(d: TaskDto, s: seq<TaskDto>)
    requires StampsDescending(s) && s != [] && NotAfter(Stamp(s[0]), Stamp(d))
    ensures StampsDescending([d] + s)
  {
    var r := [d] + s;
    forall i, j | 0 <= i < j < |r| ensures NotAfter(Stamp(r[j]), Stamp(r[i])) {
      if i == 0 && j > 1 {
        NotAfterTransitive(Stamp(s[j - 1]), Stamp(s[0]), Stamp(d));
      }
    }
  }

  /**
    `sorted(comparing(getCreatedAt).reversed())`: the same rows, in
    descending `compareTo` order of their creation times.
  */
  function SortByStampDescending(s: seq<TaskDto>): (r: seq<TaskDto>)
    ensures StampsDescending(r)
    ensures multiset(r) == multiset(s)
  {
    if s == [] then []
    else
      assert s == [s[0]] + s[1..];
      Insert(s[0], SortByStampDescending(s[1..]))
  }

  /**
    A stamp made by `create` is `new Date().toString()`, which starts with the
    weekday name. Two such stamps a day apart, a Sunday and the next Monday,
    are sorted Sunday first: `list` puts the older task ahead.
  */
  lemma ServerStampsOutOfOrder(sunday: TaskDto, monday: TaskDto)
    requires sunday.createdAt == Some("Sun Oct 18 09:00:00 UTC 2026")
    requires monday.createdAt == Some("Mon Oct 19 09:00:00 UTC 2026")
    ensures SortByStampDescending([monday, sunday]) == [sunday, monday]
    ensures !StampsDescending([monday, sunday])
  {
  }

  /**
    The row `create` saves: a missing or empty id replaced by a fresh one, a
    missing creation time by the current one, every other field as sent.
  */
  function Prepared(dto: TaskDto, freshId: string, now: string): (p: TaskDto)
    requires freshId != ""
    ensures p.id.Some? && p.id.value != "" && p.createdAt.Some?
    ensures dto.id.Some? && dto.id.value != "" ==> p.id == dto.id
    ensures dto.id.None? || dto.id.value == "" ==> p.id == Some(freshId)
    ensures dto.createdAt.Some? ==> p.createdAt == dto.createdAt
    ensures dto.createdAt.None? ==> p.createdAt == Some(now)
    ensures p == dto.(id := p.id, createdAt := p.createdAt)
  {
    var withId := if dto.id.None? || dto.id.value == "" then dto.(id := Some(freshId)) else dto;
    if withId.createdAt.None? then withId.(createdAt := Some(now)) else withId
  }

  /** A row that already has an id and a creation time is saved as sent, so preparing is idempotent. */
  lemma PreparedIdempotent(dto: TaskDto, freshId: string, now: string, freshId': string, now': string)
    requires freshId != "" && freshId' != ""
    ensures Prepared(Prepared(dto, freshId, now), freshId', now') == Prepared(dto, freshId, now)
    ensures dto.id.Some? && dto.id.value != "" && dto.createdAt.Some? ==> Prepared(dto, freshId, now) == dto
  {
  }

  /**
    The row `update` saves: title, priority, note and category taken from the
    request when present, `completed` and `pomodoroCount` always taken from
    it, id and creation time kept.
  */
  function Merged(existing: TaskDto, updates: TaskDto): TaskDto {
    existing.(
      title := if updates.title.Some? then updates.title else existing.title,
      completed := updates.completed,
      priority := if updates.priority.Some? then updates.priority else existing.priority,
      note := if updates.note.Some? then updates.note else existing.note,
      pomodoroCount := updates.pomodoroCount,
      categoryId := if updates.categoryId.Some? then updates.categoryId else existing.categoryId)
  }

  /**
    An update never changes id or creation time; sending the same update twice
    is sending it once; sending the stored row back changes nothing; and an
    update whose text fields are all `null` still resets `completed` and
    `pomodoroCount` to what it carries (`false` and `0` when the client left
    them out), changing nothing else.
  */
  lemma MergedProperties(existing: TaskDto, updates: TaskDto)
    ensures Merged(existing, updates).id == existing.id
    ensures Merged(existing, updates).createdAt == existing.createdAt
    ensures Merged(Merged(existing, updates), updates) == Merged(existing, updates)
    ensures Merged(existing, existing) == existing
    ensures updates.title.None? && updates.priority.None? && updates.note.None? && updates.categoryId.None? ==>
      Merged(existing, updates) == existing.(completed := updates.completed, pomodoroCount := updates.pomodoroCount)
  {
  }

  /**
    The setters `update` calls on the loaded entity: the four text fields
    only when the request carries them, `completed` and `pomodoroCount`
    always. The entity then holds `Merged` of its old row and the request.
  */
  method ApplyUpdates(existing: Task, updates: TaskDto)
    modifies existing
    ensures existing.ToDto() == Merged(old(existing.ToDto()), updates)
  {
    if updates.title.Some? {
      existing.SetTitle(updates.title);
    }
    existing.SetCompleted(updates.completed);
    if updates.priority.Some? {
      existing.SetPriority(updates.priority);
    }
    if updates.note.Some? {
      existing.SetNote(updates.note);
    }
    existing.SetPomodoroCount(updates.pomodoroCount);
    if updates.categoryId.Some? {
      existing.SetCategoryId(updates.categoryId);
    }
  }

  /** The tasks of a category, as `findByCategoryId` selects them. */
  function InCategory(categoryId: string): TaskDto -> bool {
    (d: TaskDto) => d.categoryId == Some(categoryId)
  }

  class TaskController {
    /** The `tasks` table: each row stored under its own id. */
    var repository: map<string, TaskDto>

    /**
      What the table keeps: each row under its own id (the primary key) and
      with a creation time (a non-null column that `create` fills and
      `update` never touches).
    */
    ghost predicate Valid()
      reads this
    {
      forall k :: k in repository ==> repository[k].id == Some(k) && repository[k].createdAt.Some?
    }

    /** The controller over the rows the database already holds. */
    constructor (stored: map<string, TaskDto>)
      requires forall k :: k in stored ==> stored[k].id == Some(k) && stored[k].createdAt.Some?
      ensures Valid() && repository == stored
    {
      repository := stored;
    }

    /** `save`: the entity's row stored under its id, and returned. */
    method Save(task: Task) returns (saved: TaskDto)
      requires task.id.Some?
      modifies this
      ensures saved == task.ToDto()
      ensures repository == old(repository)[task.id.value := saved]
    {
      saved := task.ToDto();
      repository := repository[task.id.value := saved];
    }

    /** `GET /api/tasks`: every stored task exactly once, in descending `compareTo` order of `createdAt`. */
    method List() returns (tasks: seq<TaskDto>)
      requires Valid()
      ensures StampsDescending(tasks)
      ensures |tasks| == |repository|
      ensures forall i :: 0 <= i < |tasks| ==> tasks[i] in repository.Values
      ensures forall k :: k in repository ==> repository[k] in tasks
      ensures forall i, j :: 0 <= i < j < |tasks| ==> tasks[i].id != tasks[j].id
    {
      var all, keys := FindAll(repository);
      tasks := SortByStampDescending(all);
      PermutationKeepsKeysDistinct(all, tasks, (d: TaskDto) => d.id);
      assert |tasks| == |multiset(tasks)| == |multiset(all)| == |all|;
      forall i | 0 <= i < |tasks| ensures tasks[i] in repository.Values {
        assert tasks[i] in multiset(all);
      }
      forall k | k in repository ensures repository[k] in tasks {
        assert repository[k] in multiset(all);
      }
    }

    /** `GET /api/tasks/{id}`: the stored row, or not-found. */
    method Get(id: string) returns (r: Response<TaskDto>)
      ensures id in repository <==> r.Ok?
      ensures id in repository ==> r.body == repository[id]
      ensures id !in repository ==> r == NotFound
    {
      if id in repository {
        r := Ok(repository[id]);
      } else {
        r := NotFound;
      }
    }

    /**
      `POST /api/tasks`: the prepared row is stored under its id, replacing a
      row with the same id, and returned.
    */
    method Create(dto: TaskDto, freshId: string, now: string) returns (r: Response<TaskDto>)
      requires Valid() && freshId != ""
      modifies this
      ensures Valid()
      ensures r == Ok(Prepared(dto, freshId, now))
      ensures repository == old(repository)[r.body.id.value := r.body]
    {
      var request := dto;
      if request.id.None? || request.id.value == "" {
        request := request.(id := Some(freshId));
      }
      if request.createdAt.None? {
        request := request.(createdAt := Some(now));
      }
      var task := Task.FromDto(request);
      var saved := Save(task);
      r := Ok(saved);
    }

    /**
      `PUT /api/tasks/{id}`: not-found and no change for an unknown id;
      otherwise the stored row becomes `Merged` of itself and the request and
      is returned.
    */
    method Update(id: string, updates: TaskDto) returns (r: Response<TaskDto>)
      requires Valid()
      modifies this
      ensures Valid()
      ensures id !in old(repository) ==> r == NotFound && repository == old(repository)
      ensures id in old(repository) ==>
        && r == Ok(Merged(old(repository)[id], updates))
        && repository == old(repository)[id := r.body]
    {
      if id !in repository {
        return NotFound;
      }
      var existing := Task.FromDto(repository[id]);
      ApplyUpdates(existing, updates);
      var saved := Save(existing);
      r := Ok(saved);
    }

    /**
      `DELETE /api/tasks/{id}`: not-found and no change for an unknown id;
      otherwise exactly that row is removed and the answer is no-content.
    */
    method Delete(id: string) returns (r: Response<()>)
      requires Valid()
      modifies this
      ensures Valid()
      ensures r == (if id in old(repository) then NoContent else NotFound)
      ensures repository == old(repository) - {id}
    {
      if id !in repository {
        return NotFound;
      }
      repository := repository - {id};
      r := NoContent;
    }

    /** `GET /api/tasks/category/{categoryId}`: exactly the stored tasks of that category, each once. */
    method GetTasksByCategory(categoryId: string) returns (tasks: seq<TaskDto>)
      requires Valid()
      ensures forall i :: 0 <= i < |tasks| ==> tasks[i] in repository.Values && tasks[i].categoryId == Some(categoryId)
      ensures forall k :: k in repository && repository[k].categoryId == Some(categoryId) ==> repository[k] in tasks
      ensures forall i, j :: 0 <= i < j < |tasks| ==> tasks[i].id != tasks[j].id
    {
      var all, keys := FindAll(repository);
      FilterKeepsKeysDistinct(all, InCategory(categoryId), (d: TaskDto) => d.id);
      tasks := Filter(all, InCategory(categoryId));
    }
  }
}
