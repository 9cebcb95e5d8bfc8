/**
 Values the page derives from the list: the two task counters, the average
 priority, the heat-map hue of a task, and the condition under which the
 minute-by-minute sweep reports a task as overdue.
 */
module Presentation {
  import opened Seqs
  import opened Tasks
  import opened Views
  import opened TaskList

  /** The counters: the number of tasks and the number of completed ones. */
  function Counters(s: seq<Task>): (r: (nat, nat))
    ensures r.0 == |s| && r.1 <= r.0
    ensures r.1 == |ByStatus(s, "completed")|
    ensures r.0 - r.1 == |ByStatus(s, "active")|
  {
    StatusPartition(s);
    (|s|, |Filter(s, IsDone)|)
  }

  function PrioritySum(s: seq<Task>): int {
    if s == [] then 0 else s[0].priority + PrioritySum(s[1..])
  }

  lemma {:induction false} PrioritySumBounds(s: seq<Task>)
    requires forall t :: t in s ==> 0 <= t.priority <= 5
    ensures 0 <= PrioritySum(s) <= 5 * |s|
    decreases |s|
  {
    if s != [] {
      PrioritySumBounds(s[1..]);
    }
  }

  /** `sum / totalTasks || 0`: the mean priority, and 0 for the empty list (where the source
      divides 0 by 0). */
  function AveragePriority(s: seq<Task>): (r: real)
    ensures s == [] ==> r == 0.0
    ensures (forall t :: t in s ==> 0 <= t.priority <= 5) ==> 0.0 <= r <= 5.0
  {
    if s == [] then 0.0
    else
      MeanInRange(s);
      PrioritySum(s) as real / |s| as real
  }

  lemma MeanInRange(s: seq<Task>)
    requires s != []
    ensures (forall t :: t in s ==> 0 <= t.priority <= 5) ==>
      0.0 <= PrioritySum(s) as real / |s| as real <= 5.0
  {
    if forall t :: t in s ==> 0 <= t.priority <= 5 {
      PrioritySumBounds(s);
      DivBounds(PrioritySum(s) as real, |s| as real);
    }
  }

  lemma DivBounds(x: real, n: real)
    requires n > 0.0 && 0.0 <= x <= 5.0 * n
    ensures 0.0 <= x / n <= 5.0
  {
    var q := x / n;
    assert q * n == x;
  }

  /** The heat-map hue `200 - priority * 30`: 200 for priority 0 down to 50 for priority 5. */
  function Hue(priority: int): (hue: int)
    ensures 0 <= priority <= 5 ==> 50 <= hue <= 200
    ensures priority == 0 ==> hue == 200
    ensures priority == 5 ==> hue == 50
  {
    200 - priority * 30
  }

  /** A higher priority always gets a strictly smaller (hotter) hue. */
  lemma HueDecreasing(p: int, q: int)
    requires p < q
    ensures Hue(q) < Hue(p)
  {
  }

  /** The sweep's test: not completed, a due date and a due time are both set, and `now` is at
      or past the due instant. `parse` stands for `new Date(`${dueDate}T${dueTime}`)`; `None`
      is an invalid date, which no comparison reaches. */
  predicate Overdue(t: Task, now: int, parse: (string, string) -> Option<int>) {
    !t.completed && t.dueDate != "" && t.dueTime != "" &&
    match parse(t.dueDate, t.dueTime)
    case Some(due) => now >= due
    case None => false
  }

  function OverdueAt(now: int, parse: (string, string) -> Option<int>): Task -> bool {
    (t: Task) => Overdue(t, now, parse)
  }

  /** The sweep stops reporting a task once it is deleted: nothing with its id is left. */
  lemma SweepSkipsDeleted(s: seq<Task>, id: int, now: int, parse: (string, string) -> Option<int>)
    ensures forall t :: t in Filter(Removed(s, id), OverdueAt(now, parse)) ==> t.id != id
  {
    forall t | t in Filter(Removed(s, id), OverdueAt(now, parse)) ensures t.id != id {
      assert t in Removed(s, id);
      assert KeepOther(id)(t);
    }
  }

  /** The sweep stops reporting a task once it is completed: toggling an id whose tasks are
      all incomplete leaves no task with that id to report. */
  lemma SweepSkipsCompleted(s: seq<Task>, id: int, now: int, parse: (string, string) -> Option<int>)
    requires forall t :: t in s && t.id == id ==> !t.completed
    ensures forall t :: t in Filter(Toggled(s, id), OverdueAt(now, parse)) ==> t.id != id
  {
    ToggleSpec(s, id);
    forall t | t in Filter(Toggled(s, id), OverdueAt(now, parse)) ensures t.id != id {
      assert t in Toggled(s, id) && Overdue(t, now, parse);
      var i :| 0 <= i < |s| && Toggled(s, id)[i] == t;
      assert t.id == s[i].id;
    }
  }

  /** Once overdue, a task stays overdue at every later instant until it is completed. */
  lemma OverdueStays(t: Task, now: int, later: int, parse: (string, string) -> Option<int>)
    requires Overdue(t, now, parse) && now <= later
    ensures Overdue(t, later, parse)
  {
  }
}
