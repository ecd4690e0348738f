# Pomodo in Dafny

Pomodo is a task list with a Pomodoro timer. A React front end keeps tasks and
categories and runs the timer. A Spring back end stores tasks and categories
behind two REST controllers. This project models the core of both halves and
proves what each operation promises.

- `src/timer.dfy` (`Timer`): the timer view `PomodoroTimer.tsx`.
  - The class `PomodoroTimer` holds the seven state variables.
  - Its methods are one interval tick, the zero edge of the effect, start/pause, reset and the three duration sliders.
  - The phase decision table is a pure function. Its iterates give the four-session cycle.
- `src/records.dfy` (`Records`): the front-end records (`types/task.ts`).
  - The records are `Task` and `Category`.
  - `Partial<…>` patches are modelled, with the object spread `{ ...t, ...u }` as `Merge`.
- `src/task_hook.dfy` (`TaskHook`): the `useTasks` hook. The class `TaskStore` holds the task list, and every operation replaces it.
- `src/category_hook.dfy` (`CategoryHook`): the `useCategories` hook, as the class `CategoryStore`.
- `src/board.dfy` (`Board`): the page `Pomodo.tsx`.
  - The priority filter and the grouping of tasks into category buckets. The grouping is a loop that builds a map.
  - The rendered sections and the active-task picker.
  - The link from the timer's completion to the active task.
  - The deletion of a category.
- `src/task_entity.dfy`, `src/category_entity.dfy`: the JPA entities `Task` and `Category`.
  - Each is a class with its setters, `toDto`, and `fromDto`.
  - The DTOs are datatypes. A Java `null` is `None`.
- `src/repository.dfy` (`Repository`): `findAll` over a repository seen as a map from id to row.
- `src/task_api.dfy` (`TaskApi`), `src/category_api.dfy` (`CategoryApi`): the two controllers.
  - Each is a class whose `repository` field is the table.
  - Each has an invariant `Valid`: every row is stored under its own id.
- `src/common.dfy`, `src/seqs.dfy`: `Option`, an HTTP-style `Response`, and the list operations both hooks use.
  - The list operations are JavaScript's `filter`, `find`, `slice`, and `find` followed by `map`.

Ids, timestamps and server answers enter as parameters:
- `crypto.randomUUID()` and `UUID.randomUUID()` become a `freshId` or `id` argument.
- `new Date()` becomes a `now`, `createdAt` or `loadedAt` argument.
- The list read at start-up becomes a `loaded` argument.

The front-end hooks are modelled by their local branch. The hook takes that branch when the server call fails. For tasks, the server's answer to a successful call carries the same eight fields as the local value. For categories it does not (see "## Left out").

## Model

| member | source | states |
|---|---|---|
| Timer.MaxMinutes | frontEnd/src/components/PomodoroTimer.tsx:107-153 | the short-break slider ends at 30 minutes; the work and long-break sliders end at 60 |
| Timer.LabelDistinguishesModes | frontEnd/src/components/PomodoroTimer.tsx:76-80 | two modes have the same label only if they are the same mode |
| Timer.Clock | frontEnd/src/components/PomodoroTimer.tsx:65-66 | the minutes/seconds split: minutes × 60 + seconds gives back the count, and the seconds part is below 60 |
| Timer.NextPhase | frontEnd/src/components/PomodoroTimer.tsx:29-48 | at zero, work counts one more session and goes to a break, which is long exactly when the new count is a multiple of 4; a break goes back to work with the count unchanged |
| Timer.NextPhaseAlternates | frontEnd/src/components/PomodoroTimer.tsx:29-48 | work and breaks alternate |
| Timer.NextPhaseConsistent | frontEnd/src/components/PomodoroTimer.tsx:29-48 | after a completion, a break always follows at least one session, and it is long exactly when the count is a multiple of 4 |
| Timer.FreshCycle | frontEnd/src/components/PomodoroTimer.tsx:29-48 | from a fresh timer, after k work/break rounds the mode is work with k sessions, and the (k+1)-th break is long exactly when 4 divides k+1 |
| Timer.FourSessions | frontEnd/src/components/PomodoroTimer.tsx:29-48 | the first four breaks are short, short, short, long |
| Timer.PomodoroTimer.TotalTime | frontEnd/src/components/PomodoroTimer.tsx:68-74 | `getTotalTime` is the current mode's duration × 60; it is at least 60 and bounds the countdown, so the progress ratio lies between 0 and 1 |
| Timer.PomodoroTimer.constructor | frontEnd/src/components/PomodoroTimer.tsx:14-21 | initial state: 25/5/15 minutes, paused work phase of 1500 seconds, no sessions |
| Timer.PomodoroTimer.Tick | frontEnd/src/components/PomodoroTimer.tsx:24-28 | a tick fires only while active with time left, takes exactly one second off and changes nothing else |
| Timer.PomodoroTimer.CompletePhase | frontEnd/src/components/PomodoroTimer.tsx:29-48 | at zero the timer pauses, moves to `NextPhase` and loads that phase's full length; `onComplete` fires exactly when a work phase ended; with time left nothing changes |
| Timer.PomodoroTimer.Toggle | frontEnd/src/components/PomodoroTimer.tsx:56 | start/pause flips `isActive` only |
| Timer.PomodoroTimer.Reset | frontEnd/src/components/PomodoroTimer.tsx:58-63 | paused full work phase with no sessions; durations untouched |
| Timer.ResetTwice | frontEnd/src/components/PomodoroTimer.tsx:58-63 | after two resets the timer is a paused, full work phase with no sessions and its durations unchanged, the same state one reset gives |
| Timer.PomodoroTimer.SetDuration | frontEnd/src/components/PomodoroTimer.tsx:107-153 | a slider move sets only its own duration within the slider's range, reloads the countdown only when that phase is on the clock, and is refused while the timer runs |
| Timer.FirstSession | frontEnd/src/components/PomodoroTimer.tsx:14-48 | a fresh timer started and run down ends in a paused five-minute short break with one session |
| Records.MergeThen | frontEnd/src/hooks/useTasks.ts:85 | spreading two patches in turn equals spreading their combination; spreading one patch twice equals spreading it once |
| Records.MoveToChangesOnlyCategory | frontEnd/src/pages/Pomodo.tsx:58 | the patch `{ categoryId }` changes the category and nothing else |
| Seqs.UpdateWhere | frontEnd/src/hooks/useTasks.ts:50-57 | `find` then `map`: an unknown id changes nothing, other elements stay, and every match becomes the update of the first match |
| TaskHook.NewTask | frontEnd/src/hooks/useTasks.ts:30-39 | a new task is not completed, has no pomodoros, and takes every other field from the arguments |
| TaskHook.Removed | frontEnd/src/hooks/useTasks.ts:61-67 | after a delete, no task with that id is left; every other task is kept, and nothing is added |
| TaskHook.UpdateOnlyThatTask | frontEnd/src/hooks/useTasks.ts:50-57 | with unique ids, an update by id changes exactly the task with that id and keeps length and order |
| TaskHook.ToggleFlipsOne | frontEnd/src/hooks/useTasks.ts:49-59 | toggling an unknown id changes nothing; with unique ids, toggling flips `completed` of that task only |
| TaskHook.ToggleTwice | frontEnd/src/hooks/useTasks.ts:49-59 | with unique ids, toggling twice restores the list |
| TaskHook.DeleteTwice | frontEnd/src/hooks/useTasks.ts:61-67 | deleting twice equals deleting once; deleting an unknown id changes nothing |
| TaskHook.IncrementBumpsOne | frontEnd/src/hooks/useTasks.ts:70-80 | incrementing an unknown id changes nothing; with unique ids, only that task's count rises, by one |
| TaskHook.UpdateMergesOne | frontEnd/src/hooks/useTasks.ts:82-92 | updating an unknown id changes nothing; with unique ids, the patch is spread over that task only |
| TaskHook.TotalOneMore | frontEnd/src/hooks/useTasks.ts:70-80 | two lists that differ only by one extra pomodoro on one task differ by one in total |
| TaskHook.IncrementAddsOnePomodoro | frontEnd/src/hooks/useTasks.ts:70-80 | with unique ids, an increment adds exactly one pomodoro to the total when the id is known, and none otherwise |
| TaskHook.TaskStore.constructor | frontEnd/src/hooks/useTasks.ts:8 | the list starts empty |
| TaskHook.TaskStore.AddTask | frontEnd/src/hooks/useTasks.ts:29-46 | the new task goes in front, the old list follows unchanged, and the category defaults to `'default'` |
| TaskHook.TaskStore.ToggleTask | frontEnd/src/hooks/useTasks.ts:49-59 | the list becomes `Toggled` |
| TaskHook.TaskStore.DeleteTask | frontEnd/src/hooks/useTasks.ts:61-68 | both branches give `Removed` |
| TaskHook.TaskStore.IncrementPomodoro | frontEnd/src/hooks/useTasks.ts:70-80 | the list becomes `Incremented` |
| TaskHook.TaskStore.UpdateTask | frontEnd/src/hooks/useTasks.ts:82-92 | the list becomes `Updated` |
| CategoryHook.DefaultCategories | frontEnd/src/hooks/useCategories.ts:7-14 | exactly one category: `'default'`, "Uncategorized", the muted color |
| CategoryHook.OrDefaults | frontEnd/src/hooks/useCategories.ts:19-33 | a loaded list is kept unless it is empty, in which case the defaults replace it; the result is never empty |
| CategoryHook.DeletedKeepsDefault | frontEnd/src/hooks/useCategories.ts:56-64 | deleting `'default'` changes nothing, no deletion loses `'default'`, a deleted id is gone, and every other category stays |
| CategoryHook.UpdateCategoryFrame | frontEnd/src/hooks/useCategories.ts:66-76 | an unknown id changes nothing; otherwise the patch is spread over the matching category and every other category stays in place |
| CategoryHook.CategoryStore.constructor | frontEnd/src/hooks/useCategories.ts:17 | the list starts as the defaults |
| CategoryHook.CategoryStore.Load | frontEnd/src/hooks/useCategories.ts:19-33 | the loaded list, or the defaults when it is empty |
| CategoryHook.CategoryStore.AddCategory | frontEnd/src/hooks/useCategories.ts:39-54 | the new category is appended at the end and returned |
| CategoryHook.CategoryStore.DeleteCategory | frontEnd/src/hooks/useCategories.ts:56-64 | the list becomes `Deleted` (unchanged for `'default'`) |
| CategoryHook.CategoryStore.UpdateCategory | frontEnd/src/hooks/useCategories.ts:66-76 | the list becomes `UpdatedCategories` |
| Board.FilteredTasks | frontEnd/src/pages/Pomodo.tsx:22-27 | `'all'` keeps the whole list; a priority keeps exactly the tasks of that priority |
| Board.FilteredKeepsOrder | frontEnd/src/pages/Pomodo.tsx:22-27 | the filter keeps relative order: filtering a concatenation concatenates the filtered parts |
| Board.GroupByCategory | frontEnd/src/pages/Pomodo.tsx:29-42 | every category has a bucket, even an empty one; every task's category id has one; each bucket holds exactly its category's tasks in filter order; there are no other keys |
| Board.SectionsShowKnownCategories | frontEnd/src/pages/Pomodo.tsx:108-112 | each rendered section shows its category's bucket; a task is rendered exactly when it passed the filter and its category is known, so a task with an unknown category is never shown |
| Board.BucketsPartition | frontEnd/src/pages/Pomodo.tsx:36-39 | the bucket sizes over distinct keys covering every category id add up to the number of filtered tasks |
| Board.ActiveChoices | frontEnd/src/pages/Pomodo.tsx:130 | at most 5 tasks, none completed, the first incomplete ones in filter order, and all of them when there are fewer than 5 |
| Board.ReassignedKeepsTasksVisible | frontEnd/src/pages/Pomodo.tsx:54-62 | tasks of the deleted category move to `'default'` with nothing else changed; other tasks are untouched; when `'default'` exists, each task that was shown is still shown, whatever the other tasks' categories |
| Board.StaleCallsLeaveOrphan | frontEnd/src/pages/Pomodo.tsx:54-62 | as written, with two tasks in a category, only the second moves to `'default'`; the first keeps the deleted category |
| Board.Board.constructor | frontEnd/src/pages/Pomodo.tsx:17-20 | the page starts with an empty task list, the default categories, a fresh timer (25/5/15 minutes, a paused 1500-second work phase, no sessions), the filter on `'all'`, and no active task |
| Board.Board.ChooseActiveTask | frontEnd/src/pages/Pomodo.tsx:135 | a picker button makes its task the active one |
| Board.Board.HandlePomodoroComplete | frontEnd/src/pages/Pomodo.tsx:44-48 | the active task gets one more pomodoro when an id is set and not empty; otherwise nothing changes |
| Board.Board.CompleteTimerPhase | frontEnd/src/pages/Pomodo.tsx:124 | the timer takes its zero-edge step (`NextPhase`, full new countdown, paused; nothing changes with time left; durations kept), and a pomodoro is credited exactly when a work phase ended and a task is active |
| Board.ReassignStep | frontEnd/src/pages/Pomodo.tsx:56-60 | with unique ids, one more `updateTask` call applied to the current list moves one more task of the deleted category to `'default'` and leaves the rest as they were |
| Board.Board.HandleDeleteCategory | frontEnd/src/pages/Pomodo.tsx:54-62 | the category's tasks move to `'default'` (for unique ids), then the category is deleted unless it is `'default'` |
| TaskEntity.Task.constructor | backEnd/src/main/java/com/pomodo/pomodo/model/Task.java:31-32 | every field starts null, false or 0 |
| TaskEntity.Task.SetId | backEnd/src/main/java/com/pomodo/pomodo/model/Task.java:39-41 | changes the id and nothing else |
| TaskEntity.Task.SetTitle | backEnd/src/main/java/com/pomodo/pomodo/model/Task.java:47-49 | changes the title and nothing else |
| TaskEntity.Task.SetCompleted | backEnd/src/main/java/com/pomodo/pomodo/model/Task.java:55-57 | changes `completed` and nothing else |
| TaskEntity.Task.SetPriority | backEnd/src/main/java/com/pomodo/pomodo/model/Task.java:63-65 | changes the priority and nothing else |
| TaskEntity.Task.SetNote | backEnd/src/main/java/com/pomodo/pomodo/model/Task.java:71-73 | changes the note and nothing else |
| TaskEntity.Task.SetCreatedAt | backEnd/src/main/java/com/pomodo/pomodo/model/Task.java:79-81 | changes the creation time and nothing else |
| TaskEntity.Task.SetPomodoroCount | backEnd/src/main/java/com/pomodo/pomodo/model/Task.java:87-89 | changes the pomodoro count and nothing else |
| TaskEntity.Task.SetCategoryId | backEnd/src/main/java/com/pomodo/pomodo/model/Task.java:95-97 | changes the category id and nothing else |
| TaskEntity.Task.FromDto | backEnd/src/main/java/com/pomodo/pomodo/model/Task.java:100-125 | builds a new entity whose `toDto` gives back the DTO it was built from |
| TaskEntity.Copy | backEnd/src/main/java/com/pomodo/pomodo/model/Task.java:100-125 | `fromDto(toDto(t))` is a new entity equal to `t` field for field |
| CategoryEntity.Category.constructor | backEnd/src/main/java/com/pomodo/pomodo/model/Category.java:21-22 | every field starts null |
| CategoryEntity.Category.SetId | backEnd/src/main/java/com/pomodo/pomodo/model/Category.java:29-31 | changes the id and nothing else |
| CategoryEntity.Category.SetTitle | backEnd/src/main/java/com/pomodo/pomodo/model/Category.java:37-39 | changes the title and nothing else |
| CategoryEntity.Category.SetDescription | backEnd/src/main/java/com/pomodo/pomodo/model/Category.java:45-47 | changes the description and nothing else |
| CategoryEntity.Category.SetColor | backEnd/src/main/java/com/pomodo/pomodo/model/Category.java:53-55 | changes the color and nothing else |
| CategoryEntity.Category.FromDto | backEnd/src/main/java/com/pomodo/pomodo/model/Category.java:58-75 | builds a new entity whose `toDto` gives back the DTO it was built from |
| CategoryEntity.Copy | backEnd/src/main/java/com/pomodo/pomodo/model/Category.java:58-75 | `fromDto(toDto(c))` is a new entity equal to `c` field for field |
| Repository.FindAll | backEnd/src/main/java/com/pomodo/pomodo/controller/TaskController.java:23 | every stored row is returned once: the ids it was read under are pairwise different and cover the table, each row is the one stored under its id, and the length equals the number of rows |
| TaskApi.NotAfterTotal | backEnd/src/main/java/com/pomodo/pomodo/controller/TaskController.java:26 | any two creation times can be compared with `compareTo`, one way or the other |
| TaskApi.NotAfterTransitive | backEnd/src/main/java/com/pomodo/pomodo/controller/TaskController.java:26 | the `compareTo` order is transitive |
| TaskApi.Insert | backEnd/src/main/java/com/pomodo/pomodo/controller/TaskController.java:26 | inserting into a list in descending `compareTo` order of `createdAt` keeps that order and adds exactly that row |
| TaskApi.SortByStampDescending | backEnd/src/main/java/com/pomodo/pomodo/controller/TaskController.java:26 | the sort is a permutation of its input in descending `compareTo` order of `createdAt` |
| TaskApi.ServerStampsOutOfOrder | backEnd/src/main/java/com/pomodo/pomodo/controller/TaskController.java:42-43 | two `Date.toString()` stamps a day apart, a Sunday and the next Monday, are sorted Sunday first, so the older task is listed ahead |
| TaskApi.Prepared | backEnd/src/main/java/com/pomodo/pomodo/controller/TaskController.java:39-43 | a missing or empty id becomes the fresh one; a missing creation time becomes now; everything else is as sent |
| TaskApi.PreparedIdempotent | backEnd/src/main/java/com/pomodo/pomodo/controller/TaskController.java:39-43 | preparing twice equals preparing once; a request that already has an id and a time is stored as sent |
| TaskApi.MergedProperties | backEnd/src/main/java/com/pomodo/pomodo/controller/TaskController.java:55-64 | an update never changes id or creation time; it is idempotent; sending the stored row changes nothing; with all text fields null it still overwrites `completed` and `pomodoroCount` and nothing else |
| TaskApi.ApplyUpdates | backEnd/src/main/java/com/pomodo/pomodo/controller/TaskController.java:54-63 | the setters of `update` leave the entity holding `Merged` of its old row and the request |
| TaskApi.TaskController.constructor | backEnd/src/main/java/com/pomodo/pomodo/controller/TaskController.java:18-19 | the controller works on the stored table |
| TaskApi.TaskController.Save | backEnd/src/main/java/com/pomodo/pomodo/controller/TaskController.java:46 | `save` stores the entity's row under its id and returns it |
| TaskApi.TaskController.List | backEnd/src/main/java/com/pomodo/pomodo/controller/TaskController.java:21-28 | every stored task exactly once (as many as the table holds, no two with the same id), in descending `compareTo` order of `createdAt` |
| TaskApi.TaskController.Get | backEnd/src/main/java/com/pomodo/pomodo/controller/TaskController.java:30-35 | the stored row, or not-found exactly when the id is absent |
| TaskApi.TaskController.Create | backEnd/src/main/java/com/pomodo/pomodo/controller/TaskController.java:37-48 | the `Prepared` row is stored under its id, replacing any row with that id, and returned |
| TaskApi.TaskController.Update | backEnd/src/main/java/com/pomodo/pomodo/controller/TaskController.java:50-70 | an unknown id gives not-found and no change; otherwise the row becomes `Merged` and is returned |
| TaskApi.TaskController.Delete | backEnd/src/main/java/com/pomodo/pomodo/controller/TaskController.java:72-79 | an unknown id gives not-found; otherwise exactly that row is removed and the answer is no-content |
| TaskApi.TaskController.GetTasksByCategory | backEnd/src/main/java/com/pomodo/pomodo/controller/TaskController.java:81-87 | the stored tasks of that category and nothing else, no task listed twice (their ids are pairwise different) |
| CategoryApi.Prepared | backEnd/src/main/java/com/pomodo/pomodo/controller/CategoryController.java:52-54 | a missing or empty id becomes the fresh one, and everything else is as sent |
| CategoryApi.MergedProperties | backEnd/src/main/java/com/pomodo/pomodo/controller/CategoryController.java:65-70 | an update keeps the id; an update with every field null changes nothing; it is idempotent; sending the stored row changes nothing |
| CategoryApi.CategoryController.constructor | backEnd/src/main/java/com/pomodo/pomodo/controller/CategoryController.java:19-20 | the controller works on the stored table |
| CategoryApi.CategoryController.Save | backEnd/src/main/java/com/pomodo/pomodo/controller/CategoryController.java:57 | `save` stores the entity's row under its id and returns it |
| CategoryApi.CategoryController.Init | backEnd/src/main/java/com/pomodo/pomodo/controller/CategoryController.java:22-33 | an empty table receives exactly the default category ("Uncategorized", no description); a table with rows is unchanged |
| CategoryApi.CategoryController.List | backEnd/src/main/java/com/pomodo/pomodo/controller/CategoryController.java:35-41 | every stored category exactly once |
| CategoryApi.CategoryController.Get | backEnd/src/main/java/com/pomodo/pomodo/controller/CategoryController.java:43-48 | the stored row, or not-found exactly when the id is absent |
| CategoryApi.CategoryController.Create | backEnd/src/main/java/com/pomodo/pomodo/controller/CategoryController.java:50-59 | the `Prepared` row is stored under its id and returned |
| CategoryApi.CategoryController.Update | backEnd/src/main/java/com/pomodo/pomodo/controller/CategoryController.java:61-76 | an unknown id gives not-found and no change; otherwise the row becomes `Merged` and is returned |
| CategoryApi.CategoryController.Delete | backEnd/src/main/java/com/pomodo/pomodo/controller/CategoryController.java:78-88 | `"default"` gives bad-request and no change, even when stored; an unknown id gives not-found and no change; otherwise exactly that row is removed; the default category is never lost |

## Left out

- Board.Board.HandleDeleteCategory: the result is stated only for task lists with unique ids. `crypto.randomUUID` provides that.
  - The updates are applied one after the other, which is the corrected behaviour (see Findings).
  - As written, each update maps the same captured list. `Board.StaleReassigned` models that.
- TaskHook.ToggleFlipsOne, TaskHook.ToggleTwice, TaskHook.IncrementBumpsOne, TaskHook.UpdateMergesOne, TaskHook.UpdateOnlyThatTask, TaskHook.IncrementAddsOnePomodoro: the "only that task" parts assume unique ids.
  - Without that assumption, `find` then `map` copies the first match over every task that shares the id. `Seqs.UpdateWhere` states this case.
- Timer.PomodoroTimer.SetDuration: a value outside the slider's range is refused and changes nothing. The slider itself never produces such a value.
- TaskApi.TaskController.List: the sort is stable in Java. The model's insertion sort keeps equal times in input order, but that is not proved.
  - The input order (`findAll`) is unspecified anyway.
- Repository.FindAll: the row order of `findAll`, `findByCategoryId` and the category `list` is up to the database. The model picks an arbitrary order.
- The back end's `pomodoroCount` is a Java `int`. The front end's number can be any JavaScript number, and JSON parsing outside that range is not modelled.
- Database column constraints are not checked on `save`: non-null title, priority and creation time for tasks, and non-null title and color for categories.
  - A row that breaks one is stored by the model, where the database would refuse it.
- Real time in the timer is left out:
  - `setInterval`/`clearInterval` and the effect's re-runs are out. `Tick` is one elapsed second, and `CompletePhase` is the zero edge.
  - The progress percentage is floating point and display only. `TotalTime` proves that its ratio lies between 0 and 1.
- Network, storage and how React applies updates are left out:
  - The remote branch of every hook operation is out, along with everything in `lib/api.ts`.
  - The `localStorage` mirroring effects are out.
  - A start-up load with nothing stored is out. It keeps the current list.
  - Asynchronous updates are taken in call order.
- CategoryHook.CategoryStore.Load, CategoryHook.CategoryStore.UpdateCategory, CategoryHook.CategoryStore.AddCategory: the server's category records are taken as front-end records. The back end's category DTO does not have that shape:
  - The back end answers with its own category DTO (id, title, description, color), not the front end's record (id, name, color, createdAt).
  - The list loaded at start-up (useCategories.ts:22-23) is that DTO too, so its entries have no `name` or `createdAt`. `Load` takes them as given.
  - A successful `updateCategory` therefore puts an entry without `name` or `createdAt` into the list. The model does not capture this.
  - `addCategory` sends no `title`, which is a non-null column, so against a real back end that call ends in the local branch that the model uses.
- TaskApi.TaskController.List: the order is descending `compareTo` order of `createdAt`. That is newest first only for ISO-8601 stamps, which the front end sends. A stamp `create` fills in is `new Date().toString()`, which starts with the weekday, so a Sunday row sorts ahead of the next Monday's (`TaskApi.ServerStampsOutOfOrder`), and every such row sorts ahead of every ISO row.
- TaskApi.NotAfter: it is Java's `compareTo` for ASCII strings such as the creation times. Java compares UTF-16 code units, where Dafny compares code points, so the two orders differ on characters outside the Basic Multilingual Plane.
- `crypto.randomUUID`, `UUID.randomUUID` and `new Date()` are parameters.
- Rendering is left out:
  - JSX is out, as are the "No tasks yet" placeholder shown when the filtered list is empty, the session number above the clock, and the theme and logout buttons.
  - The picker is shown only when the filtered list is not empty. `ActiveChoices` of an empty list is empty, so nothing is lost.
- `AuthController.java`, `SecurityConfig.java` and `PomodoroApplication.java` are framework plumbing and are not part of this model.
  - `TaskDto.java`, `CategoryDto.java` and `CategoryRepository.java` are not part of this model either. The DTOs are datatypes carrying the fields the entities copy, and the repositories are maps.

## Findings

| source | as written | input that shows it | evidently intended | confidence | as-written member | corrected member |
|---|---|---|---|---|---|---|
| frontEnd/src/pages/Pomodo.tsx:54-62 | each `updateTask` call in the loop maps the same captured `tasks` (useTasks.ts:88-90), so the last call to settle overwrites the others | tasks a and b both in category "work"; delete "work" | every task of the deleted category moves to `'default'` | not executed | Board.StaleCallsLeaveOrphan | Board.Board.HandleDeleteCategory |

As written, task a keeps the deleted category "work". `Board.SectionsShowKnownCategories` shows that such a task is never rendered, so it disappears from the page. In the corrected model, `Board.Board.HandleDeleteCategory` applies the updates in sequence, and `Board.ReassignedKeepsTasksVisible` proves that each task that was shown stays shown, even when other tasks were already orphaned.
