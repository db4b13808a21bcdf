/** The ordered task list: its seed contents, the task a valid form
    creates, and the status toggle of one task id. */
module TaskList {
  import opened Domain

  /** The three tasks the page starts with. */
  const SeedTasks: seq<Task> := [
    Task(1, "Разработать новый модуль", "Создать модуль аналитики для системы",
         "Алексей Иванов", InProgress, High, "2024-01-15"),
    Task(2, "Исправить баги в интерфейсе", "Устранить ошибки отображения на мобильных устройствах",
         "Мария Петрова", Completed, Medium, "2024-01-10"),
    Task(3, "Обновить документацию", "Дополнить техническую документацию проекта",
         "Дмитрий Смирнов", Pending, Low, "2024-01-20")
  ]

  /** Every task's id is its 1-based position in the list. The page never
      checks this, but it is why `length + 1` is a fresh id. */
  predicate IdsArePositions(ts: seq<Task>) {
    forall i :: 0 <= i < |ts| ==> ts[i].id == i + 1
  }

  lemma SeedIdsArePositions()
    ensures IdsArePositions(SeedTasks)
  {
  }

  /** Under the invariant, ids are unique and an id names a task exactly
      when it lies in 1..|ts|. */
  lemma IdsUnique(ts: seq<Task>, id: int)
    requires IdsArePositions(ts)
    ensures forall i, j :: 0 <= i < |ts| && 0 <= j < |ts| && ts[i].id == ts[j].id ==> i == j
    ensures (exists i :: 0 <= i < |ts| && ts[i].id == id) <==> 1 <= id <= |ts|
  {
    if 1 <= id <= |ts| {
      assert ts[id - 1].id == id;
    }
  }

  /** The form is accepted only when title, assignee and due date are all
      non-empty (an empty string is falsy); the description may be empty. */
  predicate FormComplete(form: TaskForm)
    ensures FormComplete(form) <==> |form.title| > 0 && |form.assignee| > 0 && |form.dueDate| > 0
  {
    form.title != "" && form.assignee != "" && form.dueDate != ""
  }

  /** The reset form is never accepted, and the description and priority
      play no part in the check. */
  lemma FormCompleteIgnoresOptionalFields(form: TaskForm, description: string, priority: Priority)
    ensures !FormComplete(EmptyForm)
    ensures FormComplete(form.(description := description, priority := priority)) == FormComplete(form)
  {
  }

  /** The task a creation appends: id one past the current length, the
      form's fields, status pending. */
  function NewTask(ts: seq<Task>, form: TaskForm): (t: Task)
    ensures t.id == |ts| + 1 && t.status == Pending
    ensures t.title == form.title && t.description == form.description
    ensures t.assignee == form.assignee && t.priority == form.priority
    ensures t.dueDate == form.dueDate
  {
    Task(|ts| + 1, form.title, form.description, form.assignee, Pending, form.priority, form.dueDate)
  }

  /** The new task's id is used by no task already in the list, and
      appending it keeps ids equal to positions. */
  lemma NewTaskIdFresh(ts: seq<Task>, form: TaskForm)
    requires IdsArePositions(ts)
    ensures forall i :: 0 <= i < |ts| ==> ts[i].id != NewTask(ts, form).id
    ensures IdsArePositions(ts + [NewTask(ts, form)])
  {
  }

  /** The same task with its status advanced one step when its id matches. */
  function ToggleOne(t: Task, taskId: int): Task {
    if t.id == taskId then t.(status := NextStatus(t.status)) else t
  }

  /** The list after a click on the toggle of task `taskId`: every task is
      visited in order, and the ones whose id matches advance their status. */
  function Toggled(ts: seq<Task>, taskId: int): (r: seq<Task>)
    ensures |r| == |ts|
    ensures forall i :: 0 <= i < |ts| ==> r[i].(status := ts[i].status) == ts[i]
    ensures forall i :: 0 <= i < |ts| ==>
      r[i].status == if ts[i].id == taskId then NextStatus(ts[i].status) else ts[i].status
  {
    if ts == [] then [] else [ToggleOne(ts[0], taskId)] + Toggled(ts[1..], taskId)
  }

  /** Toggling an id no task carries leaves the list as it was. */
  lemma ToggleAbsentIdUnchanged(ts: seq<Task>, taskId: int)
    requires forall i :: 0 <= i < |ts| ==> ts[i].id != taskId
    ensures Toggled(ts, taskId) == ts
  {
  }

  /** Under the id invariant, a toggle changes exactly the task at position
      `taskId - 1`, and only its status; the invariant is kept. */
  lemma ToggleChangesOneTask(ts: seq<Task>, taskId: int)
    requires IdsArePositions(ts)
    ensures IdsArePositions(Toggled(ts, taskId))
    ensures 1 <= taskId <= |ts| ==>
      Toggled(ts, taskId) == ts[taskId - 1 := ts[taskId - 1].(status := NextStatus(ts[taskId - 1].status))]
    ensures !(1 <= taskId <= |ts|) ==> Toggled(ts, taskId) == ts
  {
  }

  /** Three clicks on the same task give back the list it started from. */
  lemma ToggleThriceIsIdentity(ts: seq<Task>, taskId: int)
    ensures Toggled(Toggled(Toggled(ts, taskId), taskId), taskId) == ts
  {
  }
}
