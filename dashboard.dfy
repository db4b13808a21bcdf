/** The page's state and its event handlers: the task list, the form of
    the "new task" dialog, whether that dialog is open, and the employees
    array (never reassigned, but reordered in place when the dashboard
    ranks it). */
module Dashboard {
  import opened Domain
  import opened TaskList
  import opened Statistics
  import opened Ranking

  /** The notification a creation attempt raises: the destructive
      "fill in all required fields" toast, or the success toast. */
  datatype Notice = ValidationError | TaskCreated

  class Page {
    var tasks: seq<Task>
    var newTask: TaskForm
    var isCreateTaskOpen: bool
    const employees: array<Employee>

    /** Ids equal 1-based positions; every handler keeps this. */
    ghost predicate Valid()
      reads this
    {
      IdsArePositions(tasks)
    }

    constructor ()
      ensures Valid()
      ensures tasks == SeedTasks && newTask == EmptyForm && !isCreateTaskOpen
      ensures fresh(employees) && employees[..] == SeedEmployees
    {
      tasks := SeedTasks;
      newTask := EmptyForm;
      isCreateTaskOpen := false;
      employees := new Employee[4] [SeedEmployees[0], SeedEmployees[1], SeedEmployees[2], SeedEmployees[3]];
    }

    /** The dialog's open/close control and its cancel button. */
    method SetCreateTaskOpen(open: bool)
      modifies this
      ensures isCreateTaskOpen == open
      ensures tasks == old(tasks) && newTask == old(newTask)
    {
      isCreateTaskOpen := open;
    }

    /** An edit of one of the form's inputs or selects: the form becomes
      `form`, nothing else changes. */
    method EditForm(form: TaskForm)
      modifies this
      ensures newTask == form
      ensures tasks == old(tasks) && isCreateTaskOpen == old(isCreateTaskOpen)
    {
      newTask := form;
    }

    /** The dialog's "create" button. An incomplete form changes nothing
        and raises the error notice; a complete one appends its task,
        closes the dialog and resets the form. */
    method CreateTask() returns (notice: Notice)
      requires Valid()
      modifies this
      ensures Valid()
      ensures notice == ValidationError <==> !FormComplete(old(newTask))
      ensures notice == ValidationError ==>
        tasks == old(tasks) && newTask == old(newTask) && isCreateTaskOpen == old(isCreateTaskOpen)
      ensures notice == TaskCreated ==>
        tasks == old(tasks) + [NewTask(old(tasks), old(newTask))] &&
        newTask == EmptyForm && !isCreateTaskOpen
    {
      if !FormComplete(newTask) {
        return ValidationError;
      }
      var task := NewTask(tasks, newTask);
      NewTaskIdFresh(tasks, newTask);
      tasks := tasks + [task];
      isCreateTaskOpen := false;
      newTask := EmptyForm;
      notice := TaskCreated;
    }

    /** The round button in front of a task: every task with id `taskId`
        advances its status. */
    method ToggleTaskStatus(taskId: int)
      requires Valid()
      modifies this
      ensures Valid()
      ensures tasks == Toggled(old(tasks), taskId)
      ensures newTask == old(newTask) && isCreateTaskOpen == old(isCreateTaskOpen)
    {
      ToggleChangesOneTask(tasks, taskId);
      tasks := Toggled(tasks, taskId);
    }

    /** The statistics card, derived from the current list. */
    function Stats(): (s: Stats)
      reads this
      ensures s.totalTasks == |tasks|
      ensures s.completedTasks + s.inProgressTasks + s.pendingTasks == |tasks|
    {
      StatsOf(tasks)
    }

    /** The "best employees" card: sorts the employees array in place and
        shows its first three. */
    method TopEmployees() returns (top: seq<Employee>)
      modifies employees
      ensures employees[..] == SortDesc(old(employees[..]))
      ensures top == FirstThree(employees[..])
    {
      SortByCompletionRate(employees);
      top := FirstThree(employees[..]);
    }
  }

  /** A session on the seed data: a complete form creates task 4, pressing
      "create" again on the reset form is refused, three toggles of task 4
      give the list back, and the dashboard shows Petrova, Kozlova, Ivanov. */
  method Scenario() returns (notice: Notice, again: Notice, tasks: seq<Task>, top: seq<Employee>)
    ensures notice == TaskCreated && again == ValidationError
    ensures |tasks| == 4 && tasks[..3] == SeedTasks
    ensures tasks[3] == Task(4, "Провести ревью", "", "Елена Козлова", Pending, High, "2024-02-01")
    ensures top == [SeedEmployees[1], SeedEmployees[3], SeedEmployees[0]]
  {
    var page := new Page();
    var form := TaskForm("Провести ревью", "", "Елена Козлова", High, "2024-02-01");
    page.EditForm(form);
    notice := page.CreateTask();
    again := page.CreateTask();
    ghost var before := page.tasks;
    page.ToggleTaskStatus(4);
    page.ToggleTaskStatus(4);
    page.ToggleTaskStatus(4);
    ToggleThriceIsIdentity(before, 4);
    tasks := page.tasks;
    top := page.TopEmployees();
    SeedTopEmployees();
  }
}
