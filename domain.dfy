/** The entities of the task-management page: tasks, employees, the
    task-creation form, and the small total mappings the page derives from
    a task's status and priority (next status, badge colours, labels). */
module Domain {

  /** A task's status; the page stores it as one of the strings
      "pending", "in-progress", "completed". */
  datatype Status = Pending | InProgress | Completed

  /** A task's priority; stored as "low", "medium" or "high". */
  datatype Priority = Low | Medium | High

  datatype Task = Task(
    id: int,
    title: string,
    description: string,
    assignee: string,
    status: Status,
    priority: Priority,
    dueDate: string)

  datatype Employee = Employee(
    id: int,
    name: string,
    role: string,
    tasksCount: int,
    completionRate: int,
    avatar: string)

  /** The fields of the "new task" dialog. */
  datatype TaskForm = TaskForm(
    title: string,
    description: string,
    assignee: string,
    priority: Priority,
    dueDate: string)

  /** The form as the page starts it and resets it after a creation:
      every text field empty, priority medium. */
  const EmptyForm: TaskForm := TaskForm("", "", "", Medium, "")

  /** The string the page stores for a status. */
  function StatusName(s: Status): string {
    match s
    case Pending => "pending"
    case InProgress => "in-progress"
    case Completed => "completed"
  }

  /** The string the page stores for a priority. */
  function PriorityName(p: Priority): string {
    match p
    case Low => "low"
    case Medium => "medium"
    case High => "high"
  }

  /** Position of a status on the cycle pending -> in-progress -> completed. */
  function Rank(s: Status): (r: nat)
    ensures r < 3
  {
    match s
    case Pending => 0
    case InProgress => 1
    case Completed => 2
  }

  lemma RankInjective(a: Status, b: Status)
    ensures Rank(a) == Rank(b) ==> a == b
  {
  }

  /** The status a click on a task's toggle gives it: completed wraps to
      pending, pending goes to in-progress, anything else to completed. */
  function NextStatus(s: Status): (r: Status)
    ensures Rank(r) == (Rank(s) + 1) % 3
  {
    if s == Completed then Pending
    else if s == Pending then InProgress
    else Completed
  }

  /** NextStatus applied k times. */
  function Advance(s: Status, k: nat): Status
    decreases k
  {
    if k == 0 then s else Advance(NextStatus(s), k - 1)
  }

  lemma {:induction false} AdvanceRank(s: Status, k: nat)
    ensures Rank(Advance(s, k)) == (Rank(s) + k) % 3
    decreases k
  {
    if k > 0 {
      AdvanceRank(NextStatus(s), k - 1);
    }
  }

  /** The status cycle has period exactly three: three toggles give the
      status back, one or two never do. */
  lemma CycleHasPeriodThree(s: Status, k: nat)
    ensures Advance(s, k) == s <==> k % 3 == 0
  {
    AdvanceRank(s, k);
    RankInjective(Advance(s, k), s);
  }

  /** Colour class of a status dot or badge; the page switches on the
      status string, with a grey default. */
  function StatusColor(status: string): (r: string)
    ensures status == "completed" ==> r == "bg-green-500"
    ensures status == "in-progress" ==> r == "bg-blue-500"
    ensures status != "completed" && status != "in-progress" ==> r == "bg-gray-400"
  {
    match status
    case "completed" => "bg-green-500"
    case "in-progress" => "bg-blue-500"
    case _ => "bg-gray-400"
  }

  /** Badge variant of a priority; switch on the priority string with a
      "secondary" default. */
  function PriorityColor(priority: string): (r: string)
    ensures priority == "high" ==> r == "destructive"
    ensures priority == "medium" ==> r == "default"
    ensures priority != "high" && priority != "medium" ==> r == "secondary"
  {
    match priority
    case "high" => "destructive"
    case "medium" => "default"
    case _ => "secondary"
  }

  /** Every status gets its own colour; pending is the one served by the
      default branch. */
  lemma StatusColorsDistinct(a: Status, b: Status)
    ensures StatusColor(StatusName(a)) == StatusColor(StatusName(b)) <==> a == b
    ensures StatusColor(StatusName(Pending)) == StatusColor("")
  {
  }

  /** Every priority gets its own badge variant; low is the one served by
      the default branch. */
  lemma PriorityColorsDistinct(a: Priority, b: Priority)
    ensures PriorityColor(PriorityName(a)) == PriorityColor(PriorityName(b)) <==> a == b
    ensures PriorityColor(PriorityName(Low)) == PriorityColor("")
  {
  }

  /** The label on a task's status badge in the task list. */
  function StatusLabel(s: Status): (r: string)
    ensures s == Completed <==> r == "Завершена"
    ensures s == InProgress <==> r == "В работе"
    ensures s == Pending <==> r == "Ожидает"
  {
    match s
    case Completed =>
      assert "Завершена"[0] != "Ожидает"[0] && "Завершена"[0] != "В работе"[0];
      "Завершена"
    case InProgress =>
      assert "В работе"[0] != "Ожидает"[0] && "В работе"[0] != "Завершена"[0];
      "В работе"
    case Pending =>
      assert "Ожидает"[0] != "Завершена"[0] && "Ожидает"[0] != "В работе"[0];
      "Ожидает"
  }

  /** The three badge labels are pairwise different, so the label tells
      the status. */
  lemma StatusLabelsDistinct(a: Status, b: Status)
    ensures StatusLabel(a) == StatusLabel(b) <==> a == b
  {
  }

  /** The first three elements, or all of them when there are fewer
      (the page's `.slice(0, 3)`). */
  function FirstThree<T>(s: seq<T>): (r: seq<T>)
    ensures |r| == if |s| < 3 then |s| else 3
    ensures r <= s
  {
    if |s| < 3 then s else s[..3]
  }
}
