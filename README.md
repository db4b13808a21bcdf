# Task-assignment dashboard: a verified model of its task and employee store

The dashboard is a single React page (`src/pages/Index.tsx`). It holds an
ordered list of tasks and a fixed roster of employees. It offers four things:

- creating a task from a dialog form, with validation;
- cycling a task's status with one click;
- statistics over the task list;
- a "best employees" card that ranks the roster by completion rate.

This project models that store in Dafny and proves what the page promises
about it.

- `domain.dfy` (module `Domain`): the `Task`, `Employee` and form records,
  and the status and priority enums. It also holds the next-status function,
  the colour switches and the status labels.
- `task_list.dfy` (module `TaskList`): the seed tasks and the invariant that
  ids equal 1-based positions. It defines the task a valid form creates and
  the list after a status toggle (`tasks.map(...)`).
- `statistics.dfy` (module `Statistics`): per-status counts and the rounded
  completion percentage.
- `ranking.dfy` (module `Ranking`): the in-place stable sort of the employees
  array by descending completion rate, and the first three after it.
- `initials.dfy` (module `Initials`): the avatar text
  `name.split(' ').map(n => n[0]).join('')`.
- `dashboard.dfy` (module `Dashboard`): the page state as class `Page`. Its
  fields are `tasks`, `newTask`, `isCreateTaskOpen` and the `employees`
  array. Its event handlers are methods. A closing `Scenario` walks through
  one session on the seed data.

Three behaviours of the code are worth stating, because the model follows them exactly:

- **Empty list.** For an empty task list the code divides `0 / 0`, so the
  completion rate is `NaN`. The model returns `NotANumber` in that case. The
  page starts with three tasks and never deletes any, so it never shows it.
- **Assignee.** The code does not check that the assignee names an employee.
  Only the select widget offers employee names. The model accepts any
  non-empty assignee.
- **Ranking.** While rendering, the "best employees" card sorts the page's
  own `employees` state array in place and keeps the first 3. The employees
  tab therefore shows the sorted order afterwards. `SortDescIdempotent`
  shows that sorting again on each render changes nothing.

## Model

| member | source | states |
|---|---|---|
| `Domain.NextStatus` | src/pages/Index.tsx:119-120 | The next status is one step further on the cycle pending → in-progress → completed → pending. Its rank is the old rank plus one, modulo 3. |
| `Domain.AdvanceRank` | src/pages/Index.tsx:119-120 | After k toggles, the rank of the status has advanced by k, modulo 3. |
| `Domain.CycleHasPeriodThree` | src/pages/Index.tsx:116-125 | k toggles give back the original status exactly when k is a multiple of 3. |
| `Domain.StatusColor` | src/pages/Index.tsx:127-133 | "completed" gives green and "in-progress" gives blue. Every other string takes the default, grey. |
| `Domain.StatusColorsDistinct` | src/pages/Index.tsx:127-133 | The three statuses get three different colours. Pending is the one that takes the default branch. |
| `Domain.PriorityColor` | src/pages/Index.tsx:135-141 | "high" gives destructive and "medium" gives default. Every other string gives secondary. |
| `Domain.PriorityColorsDistinct` | src/pages/Index.tsx:135-141 | The three priorities get three different badge variants. Low is the one that takes the default branch. |
| `Domain.FirstThree` | src/pages/Index.tsx:373 | `slice(0, 3)` returns a prefix of the sequence with min(3, length) elements. The same slice gives the recent-tasks card (line 350). |
| `Domain.StatusLabel` | src/pages/Index.tsx:517-518 | Completed is labelled "Завершена", in-progress "В работе" and pending "Ожидает", each in both directions: a label names exactly one status. |
| `Domain.StatusLabelsDistinct` | src/pages/Index.tsx:517-518 | Two statuses have the same badge label only if they are the same status. |
| `TaskList.SeedIdsArePositions` | src/pages/Index.tsx:45-73 | In the seed list, every task's id is its 1-based position. |
| `TaskList.IdsUnique` | src/pages/Index.tsx:101 | Under that invariant, ids are unique. An id belongs to some task exactly when it is between 1 and the list length. |
| `TaskList.FormComplete` | src/pages/Index.tsx:91 | The form is accepted exactly when title, assignee and due date are all non-empty. |
| `TaskList.FormCompleteIgnoresOptionalFields` | src/pages/Index.tsx:91 | The reset form is refused, and the description and priority never change whether a form is accepted. |
| `TaskList.NewTask` | src/pages/Index.tsx:100-104 | The created task has id = length + 1 and status pending. Its title, description, assignee, priority and due date come from the form. |
| `TaskList.NewTaskIdFresh` | src/pages/Index.tsx:101-106 | No existing task has the new task's id. After the append, ids still equal positions. |
| `TaskList.Toggled` | src/pages/Index.tsx:116-125 | The length is unchanged and tasks stay in order. Only the status can change. It advances exactly on the tasks whose id matches. |
| `TaskList.ToggleAbsentIdUnchanged` | src/pages/Index.tsx:116-124 | Toggling an id that no task has leaves the list unchanged. |
| `TaskList.ToggleChangesOneTask` | src/pages/Index.tsx:116-124 | Under the id invariant, a toggle changes only the status of the task at position id − 1, or nothing if the id is out of range. The invariant still holds afterwards. |
| `TaskList.ToggleThriceIsIdentity` | src/pages/Index.tsx:116-124 | Three toggles of the same id restore the whole list. |
| `Statistics.WithStatus` | src/pages/Index.tsx:145-147 | The filter keeps every task of the given status as often as it occurs in the list, and no other task. |
| `Statistics.CountStatus` | src/pages/Index.tsx:145-147 | A status count is at most the list length. It equals the length when every task has that status, and 0 when none has. |
| `Statistics.WithStatusConcat` | src/pages/Index.tsx:145-147 | Filtering a concatenation gives the concatenation of the filtered parts. |
| `Statistics.CountsSumToTotal` | src/pages/Index.tsx:143-147 | completed + in-progress + pending = total. |
| `Statistics.RoundHalfUp` | src/pages/Index.tsx:148 | The result r is the nearest integer to num/den, with halves rounded up: 2·den·r ≤ 2·num + den < 2·den·(r+1). |
| `Statistics.CompletionRate` | src/pages/Index.tsx:148 | The rate is NaN exactly when the total is 0. Otherwise it is 100·completed/total rounded half-up, and lies in [0, 100]. |
| `Statistics.StatsOf` | src/pages/Index.tsx:143-149 | The total is the list length, the three counts sum to it, and the rate is NaN only for the empty list. |
| `Statistics.RateAtTheExtremes` | src/pages/Index.tsx:148 | If all tasks are completed the rate is 100%. If none is, it is 0%. |
| `Statistics.CountAfterUpdate` | src/pages/Index.tsx:145-147 | Replacing one task changes each count by what the old task and the new task each contribute. |
| `Statistics.StatsAfterCreate` | src/pages/Index.tsx:143-147 | A creation adds one to the total and one to the pending count. The other counts stay the same. |
| `Statistics.StatsAfterToggle` | src/pages/Index.tsx:143-147 | Toggling an existing task moves one task from its old status's count to the next status's count. |
| `Ranking.WithRateConcat` | src/pages/Index.tsx:372 | The employees with a given rate in a concatenation are those of each part, in order. |
| `Ranking.SameTiesPermutation` | src/pages/Index.tsx:372 | Keeping every equal-rate group in order makes the result a permutation of the input. |
| `Ranking.StableSortUnique` | src/pages/Index.tsx:372 | Two sorted arrangements that keep every equal-rate group in order are equal. So a stable descending sort has exactly one result. |
| `Ranking.Insert` | src/pages/Index.tsx:372 | Inserting one employee lengthens the list by one; `InsertMultiset`, `InsertSorted` and `InsertTies` state the rest. |
| `Ranking.SortDesc` | src/pages/Index.tsx:372 | The reference sort keeps the length; `SortDescCorrect` states that it is sorted and stable. |
| `Ranking.InsertBounded` | src/pages/Index.tsx:372 | Inserting keeps every rate under a bound that the employee and the list already respect. |
| `Ranking.ConsSorted` | src/pages/Index.tsx:372 | Putting an employee in front of a sorted list whose rates are all no higher than theirs keeps it sorted. |
| `Ranking.InsertSorted` | src/pages/Index.tsx:372 | Inserting into a sorted list keeps it sorted. |
| `Ranking.InsertMultiset` | src/pages/Index.tsx:372 | Inserting adds exactly the inserted employee. |
| `Ranking.InsertTies` | src/pages/Index.tsx:372 | Inserting keeps each equal-rate group as if the employee had been put in front. |
| `Ranking.SortDescCorrect` | src/pages/Index.tsx:372 | The reference sort has the same length as its input, is non-increasing in rate, and keeps every tie group in original order (it is stable). |
| `Ranking.IsSortDesc` | src/pages/Index.tsx:372 | Any sorted rearrangement that keeps every tie group is the reference sort. |
| `Ranking.SortDescIdempotent` | src/pages/Index.tsx:371-373 | Sorting an already sorted roster changes nothing. |
| `Ranking.SwapKeepsTies` | src/pages/Index.tsx:372 | Swapping two neighbours with different rates keeps every tie group. |
| `Ranking.SameTiesTrans` | src/pages/Index.tsx:372 | Keeping tie groups is transitive. |
| `Ranking.InsertAt` | src/pages/Index.tsx:372 | One insertion pass extends the sorted prefix by one element and keeps every tie group. |
| `Ranking.SortByCompletionRate` | src/pages/Index.tsx:372 | The in-place sort leaves the array non-increasing in rate and stable. Its contents equal the reference sort of the old contents. |
| `Ranking.SortedSplit` | src/pages/Index.tsx:371-373 | Cutting a sorted list after k elements leaves a sorted prefix drawn from the list. Nobody cut off has a higher rate than anybody kept. |
| `Ranking.TopEmployeesCorrect` | src/pages/Index.tsx:371-373 | The card shows min(3, n) employees of the roster, best rate first. Nobody left out has a higher rate than anybody shown. |
| `Ranking.SeedTopEmployees` | src/pages/Index.tsx:371-373 | On the seed roster the card shows Petrova 92, Kozlova 88 and Ivanov 85. The array becomes Petrova, Kozlova, Ivanov, Smirnov. |
| `Initials.Split` | src/pages/Index.tsx:381 | `split(' ')` returns at least one segment, and no segment contains a space. |
| `Initials.JoinSplit` | src/pages/Index.tsx:381 | Joining the segments with single spaces gives the name back. |
| `Initials.SplitJoin` | src/pages/Index.tsx:381 | Splitting joined space-free segments gives the segments back. |
| `Initials.SplitSpaceFree` | src/pages/Index.tsx:381 | A name without a space is one segment. |
| `Initials.InitialsOf` | src/pages/Index.tsx:381 | A name has at most one initial per space-separated segment, and no initial is a space. |
| `Initials.WordStartsOfSplit` | src/pages/Index.tsx:381 | The first characters of the non-empty segments are the characters that begin a word. |
| `Initials.InitialsAreWordStarts` | src/pages/Index.tsx:381 | The initials are exactly the non-space characters that come first or right after a space, in order. There are at most as many as there are segments, and none is a space. Empty segments contribute nothing. |
| `Initials.FirstCharsBounds` | src/pages/Index.tsx:381 | There is at most one initial per segment, and none is a space. |
| `Initials.InitialsExample` | src/pages/Index.tsx:544 | "Алексей Иванов" shows as "АИ". |
| `Dashboard.Page.constructor` | src/pages/Index.tsx:45-88 | The page starts with the seed tasks, the seed roster, an empty form with priority medium, and the dialog closed. Ids equal positions. |
| `Dashboard.Page.SetCreateTaskOpen` | src/pages/Index.tsx:408 | Opening or closing the dialog changes only that flag. |
| `Dashboard.Page.EditForm` | src/pages/Index.tsx:426-473 | Editing an input replaces the form and nothing else. |
| `Dashboard.Page.CreateTask` | src/pages/Index.tsx:90-114 | The error notice comes exactly when title, assignee or due date is empty, and then tasks, form and dialog flag are all unchanged. Otherwise exactly the new task is appended, the dialog closes and the form resets. Ids stay equal to positions. |
| `Dashboard.Page.ToggleTaskStatus` | src/pages/Index.tsx:116-125 | The list becomes the toggled list, and form and dialog are unchanged. Ids stay equal to positions. |
| `Dashboard.Page.Stats` | src/pages/Index.tsx:143-149 | The total is the number of tasks, and the three counts sum to it. |
| `Dashboard.Page.TopEmployees` | src/pages/Index.tsx:371-373 | The employees array is reordered to the stable descending sort of its old contents, and the first three are returned. |
| `Dashboard.Scenario` | src/pages/Index.tsx:45-125 | On the seed data, a complete form creates task 4 as pending with the form's fields, and a second "create" on the reset form is refused. Three toggles of task 4 give the four-task list back. The card then shows Petrova, Kozlova, Ivanov. |

## Left out

- The pull-to-refresh drag gesture (mouse listeners, `scrollTop`, and the float multipliers 0.5 and 0.3). It is a decorative effect with no effect on the store.
- Toast notifications are a hook outside this file. `CreateTask` returns only which of the two notices it raises.
- Due-date display uses `toLocaleDateString('ru-RU')`, which is locale-library behaviour. Dates are kept as opaque strings.
- Page layout, tab switching and the card, dialog, select, badge, avatar and progress widgets are presentation only.
- Statistics.CompletionRate: computes 100·completed/total in exact arithmetic. The page computes the float `completed / total * 100` and applies `Math.round` to it, so its float rounding errors are not modelled. For example, with 23 of 40 tasks completed, `23 / 40 * 100` is 57.49999999999999 in IEEE doubles, so the page shows 57% where the model gives 58%.
- Ranking.SortByCompletionRate: the JavaScript engine's own sort algorithm is replaced by insertion sort with adjacent swaps. Any stable sort gives the same array (`StableSortUnique`), so only the order of the intermediate steps is not captured.
- Initials.InitialsOf: `n[0]` takes one UTF-16 code unit. The model takes one Dafny `char`, so names outside the Basic Multilingual Plane are not modelled.
- React applies state updates asynchronously and batches them. Handlers here update fields immediately. Every handler reads only the state from before its own updates, so the result is the same.
