/** The dashboard's statistics card: per-status counts over the task list
    and the overall completion percentage. */
module Statistics {
  import opened Domain
  import opened TaskList

  /** The tasks of one status, in list order (the page's `filter`). */
  function WithStatus(ts: seq<Task>, st: Status): (r: seq<Task>)
    ensures |r| <= |ts|
    ensures forall i :: 0 <= i < |r| ==> r[i].status == st
    ensures multiset(r) <= multiset(ts)
    ensures forall x :: multiset(r)[x] == if x.status == st then multiset(ts)[x] else 0
  {
    if ts == [] then []
    else
      assert ts == [ts[0]] + ts[1..];
      if ts[0].status == st then [ts[0]] + WithStatus(ts[1..], st)
      else WithStatus(ts[1..], st)
  }

  /** The page's `tasks.filter(t => t.status === st).length`. */
  function CountStatus(ts: seq<Task>, st: Status): (n: nat)
    ensures n <= |ts|
    ensures (forall i :: 0 <= i < |ts| ==> ts[i].status == st) ==> n == |ts|
    ensures (forall i :: 0 <= i < |ts| ==> ts[i].status != st) ==> n == 0
  {
    var r := WithStatus(ts, st);
    assert (forall i :: 0 <= i < |ts| ==> ts[i].status == st) ==> multiset(r) == multiset(ts);
    assert (forall i :: 0 <= i < |ts| ==> ts[i].status != st) ==> multiset(r) == multiset{};
    |r|
  }

  lemma {:induction false} WithStatusConcat(a: seq<Task>, b: seq<Task>, st: Status)
    ensures WithStatus(a + b, st) == WithStatus(a, st) + WithStatus(b, st)
    decreases |a|
  {
    if a == [] {
      assert a + b == b;
    } else {
      assert (a + b)[1..] == a[1..] + b;
      WithStatusConcat(a[1..], b, st);
    }
  }

  /** The completion percentage. The page divides by the task count, so an
      empty list gives NaN; NotANumber stands for that value. */
  datatype Rate = Percent(value: int) | NotANumber

  /** `num / den` rounded to the nearest integer, halves rounded up (the
      page's Math.round on a non-negative quotient, in exact arithmetic). */
  function RoundHalfUp(num: nat, den: nat): (r: nat)
    requires den > 0
    ensures den * (2 * r) <= 2 * num + den < den * (2 * r + 2)
  {
    (2 * num + den) / (2 * den)
  }

  /** Multiplying by a positive factor keeps strict order both ways. */
  lemma MulStrictMono(t: int, a: int, b: int)
    requires t > 0
    ensures a > b <==> t * a > t * b
  {
    assert t * a - t * b == t * (a - b);
  }

  /** Percentage of `completed` among `total`, or NaN when `total` is 0. */
  function CompletionRate(completed: nat, total: nat): (r: Rate)
    requires completed <= total
    ensures r == NotANumber <==> total == 0
    ensures r.Percent? ==> 0 <= r.value <= 100
    ensures r.Percent? ==> total * (2 * r.value) <= 200 * completed + total < total * (2 * r.value + 2)
  {
    if total == 0 then NotANumber
    else
      var p := RoundHalfUp(100 * completed, total);
      assert total * (2 * p) <= total * 201;
      MulStrictMono(total, 2 * p, 201);
      Percent(p)
  }

  datatype Stats = Stats(
    totalTasks: nat,
    completedTasks: nat,
    inProgressTasks: nat,
    pendingTasks: nat,
    completionRate: Rate)

  /** The counts add up: every task has exactly one of the three statuses. */
  lemma {:induction false} CountsSumToTotal(ts: seq<Task>)
    ensures CountStatus(ts, Completed) + CountStatus(ts, InProgress) + CountStatus(ts, Pending) == |ts|
  {
    if ts != [] {
      CountsSumToTotal(ts[1..]);
    }
  }

  /** The statistics the dashboard derives from the task list. */
  function StatsOf(ts: seq<Task>): (s: Stats)
    ensures s.totalTasks == |ts|
    ensures s.completedTasks + s.inProgressTasks + s.pendingTasks == s.totalTasks
    ensures s.completionRate == NotANumber <==> ts == []
    ensures s.completionRate.Percent? ==> 0 <= s.completionRate.value <= 100
  {
    CountsSumToTotal(ts);
    var completed := CountStatus(ts, Completed);
    Stats(|ts|, completed, CountStatus(ts, InProgress), CountStatus(ts, Pending),
          CompletionRate(completed, |ts|))
  }

  /** When every task is completed the rate is 100%; when none is, 0%. */
  lemma RateAtTheExtremes(completed: nat, total: nat)
    requires 0 < total && completed <= total
    ensures completed == total ==> CompletionRate(completed, total) == Percent(100)
    ensures completed == 0 ==> CompletionRate(completed, total) == Percent(0)
  {
    var p := CompletionRate(completed, total).value;
    if completed == total {
      MulStrictMono(total, 2 * p, 201);
      MulStrictMono(total, 2 * p + 2, 201);
    }
    if completed == 0 {
      MulStrictMono(total, 2 * p, 1);
    }
  }

  /** Creating a task adds one to the total and one to the pending count
      and leaves the other counts alone. */
  lemma StatsAfterCreate(ts: seq<Task>, form: TaskForm)
    ensures var before, after := StatsOf(ts), StatsOf(ts + [NewTask(ts, form)]);
      after.totalTasks == before.totalTasks + 1 &&
      after.pendingTasks == before.pendingTasks + 1 &&
      after.inProgressTasks == before.inProgressTasks &&
      after.completedTasks == before.completedTasks
  {
    var t := NewTask(ts, form);
    WithStatusConcat(ts, [t], Pending);
    WithStatusConcat(ts, [t], InProgress);
    WithStatusConcat(ts, [t], Completed);
  }

  /** Replacing the task at position k changes each count by what the old
      and the new task contribute. */
  lemma CountAfterUpdate(ts: seq<Task>, k: nat, t: Task, st: Status)
    requires k < |ts|
    ensures CountStatus(ts[k := t], st) + (if ts[k].status == st then 1 else 0)
         == CountStatus(ts, st) + (if t.status == st then 1 else 0)
  {
    var u := ts[k := t];
    assert ts == ts[..k] + [ts[k]] + ts[k + 1..];
    assert u == ts[..k] + [t] + ts[k + 1..];
    WithStatusConcat(ts[..k] + [ts[k]], ts[k + 1..], st);
    WithStatusConcat(ts[..k], [ts[k]], st);
    WithStatusConcat(ts[..k] + [t], ts[k + 1..], st);
    WithStatusConcat(ts[..k], [t], st);
  }

  /** Toggling an existing task moves one task from its status's count to
      the next status's count; the total is unchanged. */
  lemma StatsAfterToggle(ts: seq<Task>, taskId: int, st: Status)
    requires IdsArePositions(ts)
    requires 1 <= taskId <= |ts|
    ensures var old_ := ts[taskId - 1].status;
      CountStatus(Toggled(ts, taskId), st)
        == CountStatus(ts, st) - (if st == old_ then 1 else 0) + (if st == NextStatus(old_) then 1 else 0)
    ensures |Toggled(ts, taskId)| == |ts|
  {
    var k := taskId - 1;
    ToggleChangesOneTask(ts, taskId);
    CountAfterUpdate(ts, k, ts[k].(status := NextStatus(ts[k].status)), st);
  }
}
