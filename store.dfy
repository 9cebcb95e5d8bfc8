/**
 The task store: the page's one mutable list and the operations that change
 it. Adding appends in place and sorting reorders in place; toggle, delete,
 change-priority and the drag-end reorder each replace the whole list.
 */
module Store {
  import opened Text
  import opened Seqs
  import opened Tasks
  import opened TaskList
  import opened Sorting
  import opened Presentation

  class TaskStore {
    var todos: seq<Task>

    /** Every task's priority lies in [0,5]. */
    ghost predicate Valid()
      reads this
    {
      forall t :: t in todos ==> 0 <= t.priority <= 5
    }

    /** The store as it starts with nothing saved. */
    constructor ()
      ensures Valid() && todos == []
    {
      todos := [];
    }

    /** The submit handler: trims the text and appends a new task when both the trimmed text
        and the category are non-empty; otherwise nothing happens. */
    method Add(input: string, category: string, dueDate: string, dueTime: string,
               id: int, created: int, updated: int)
      requires Valid()
      modifies this
      ensures Valid()
      ensures Trim(input) != "" && category != "" ==>
        todos == old(todos) + [CreateTask(Trim(input), category, dueDate, dueTime, id, created, updated)]
      ensures Trim(input) == "" || category == "" ==> todos == old(todos)
    {
      var text := Trim(input);
      if text != "" && category != "" {
        var task := CreateTask(text, category, dueDate, dueTime, id, created, updated);
        todos := todos + [task];
      }
    }

    method ToggleComplete(id: int)
      requires Valid()
      modifies this
      ensures Valid()
      ensures todos == Toggled(old(todos), id)
    {
      todos := Toggled(todos, id);
    }

    method Delete(id: int)
      requires Valid()
      modifies this
      ensures Valid()
      ensures todos == Removed(old(todos), id)
    {
      todos := Removed(todos, id);
    }

    method ChangePriority(id: int, change: int, now: int)
      requires Valid()
      modifies this
      ensures Valid()
      ensures todos == Reprioritized(old(todos), id, change, now)
    {
      todos := Reprioritized(todos, id, change, now);
    }

    /** The drag-end handler: the list becomes the first task of each reported id, in the
        reported order. The page reports only ids of tasks it shows, all held by the store. */
    method Reorder(ids: seq<int>)
      requires Valid()
      requires forall i :: 0 <= i < |ids| ==> HasId(todos, ids[i])
      modifies this
      ensures Valid()
      ensures todos == Rebuild(old(todos), ids)
    {
      todos := Rebuild(todos, ids);
    }

    /** The sort button: sorts the stored list in place, stably, by priority and then
        `lastUpdated`, both descending. */
    method SortByPriority()
      requires Valid()
      modifies this
      ensures Valid()
      ensures todos == Sort(old(todos))
      ensures multiset(todos) == multiset(old(todos))
      ensures Ordered(todos)
    {
      var s := todos;
      var a := new Task[|s|](i requires 0 <= i < |s| => s[i]);
      assert a[..] == s;
      SortInPlace(a);
      todos := a[..];
      SortPermutes(s);
      SortOrdered(s);
      assert forall t :: t in todos ==> t in multiset(s);
    }

    /** The minute-by-minute sweep: the tasks it alerts about, in list order. */
    method OverdueSweep(now: int, parse: (string, string) -> Option<int>) returns (alerts: seq<Task>)
      ensures alerts == Filter(todos, OverdueAt(now, parse))
    {
      alerts := [];
      var i := 0;
      while i < |todos|
        invariant 0 <= i <= |todos|
        invariant alerts == Filter(todos[..i], OverdueAt(now, parse))
      {
        var t := todos[i];
        SweepStep(todos, i, OverdueAt(now, parse));
        if Overdue(t, now, parse) {
          alerts := alerts + [t];
        }
        i := i + 1;
      }
      assert todos[..i] == todos;
    }
  }

  /** Extending the scanned prefix by one task extends its filter by that task or by nothing. */
  lemma SweepStep(s: seq<Task>, i: nat, p: Task -> bool)
    requires i < |s|
    ensures Filter(s[..i + 1], p) == Filter(s[..i], p) + (if p(s[i]) then [s[i]] else [])
  {
    assert s[..i + 1] == s[..i] + [s[i]];
    FilterAppend(s[..i], [s[i]], p);
    assert [s[i]][1..] == [];
  }
}
