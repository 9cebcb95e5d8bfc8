/**
 The list-to-list rules behind the store's mutations: toggle-complete,
 delete, change-priority and the rebuild of the list from a new id order.
 Each one is the value the source assigns back to the task list.
 */
module TaskList {
  import opened Seqs
  import opened Tasks

  /** The callback of the toggle's `map`: flips `completed` on a task with the given id. */
  function Flip(t: Task, id: int): Task {
    if t.id == id then t.(completed := !t.completed) else t
  }

  function Toggled(s: seq<Task>, id: int): seq<Task> {
    Map(s, (t: Task) => Flip(t, id))
  }

  /** Toggle flips `completed` exactly on the tasks with the id and changes nothing else. */
  lemma ToggleSpec(s: seq<Task>, id: int)
    ensures |Toggled(s, id)| == |s|
    ensures forall i :: 0 <= i < |s| ==>
      Toggled(s, id)[i].(completed := s[i].completed) == s[i] &&
      Toggled(s, id)[i].completed == (if s[i].id == id then !s[i].completed else s[i].completed)
  {
  }

  lemma ToggleTwice(s: seq<Task>, id: int)
    ensures Toggled(Toggled(s, id), id) == s
  {
    assert forall i :: 0 <= i < |s| ==> Toggled(Toggled(s, id), id)[i] == s[i];
  }

  lemma ToggleAbsent(s: seq<Task>, id: int)
    requires forall t :: t in s ==> t.id != id
    ensures Toggled(s, id) == s
  {
    assert forall i :: 0 <= i < |s| ==> Toggled(s, id)[i] == s[i];
  }

  /** The callback of the delete's `filter`. */
  function KeepOther(id: int): Task -> bool {
    (t: Task) => t.id != id
  }

  function Removed(s: seq<Task>, id: int): seq<Task> {
    Filter(s, KeepOther(id))
  }

  /** Delete removes every task with the id, every copy of every other task stays, in order. */
  lemma {:induction false} DeleteSpec(s: seq<Task>, id: int)
    ensures IsSubseq(Removed(s, id), s)
    ensures forall t :: t in Removed(s, id) ==> t.id != id
    ensures forall t :: multiset(Removed(s, id))[t] == if t.id == id then 0 else multiset(s)[t]
  {
    FilterIsSubseq(s, KeepOther(id));
    forall t ensures multiset(Removed(s, id))[t] == if t.id == id then 0 else multiset(s)[t] {
      FilterCount(s, KeepOther(id), t);
    }
  }

  lemma DeleteIdempotent(s: seq<Task>, id: int)
    ensures Removed(Removed(s, id), id) == Removed(s, id)
  {
    FilterIdempotent(s, KeepOther(id));
  }

  lemma DeleteAbsent(s: seq<Task>, id: int)
    requires forall t :: t in s ==> t.id != id
    ensures Removed(s, id) == s
  {
    FilterAll(s, KeepOther(id));
  }

  /** The callback of the change-priority `map`. */
  function Bump(t: Task, id: int, change: int, now: int): Task {
    if t.id == id then t.(priority := Clamp(t.priority + change), lastUpdated := now) else t
  }

  function Reprioritized(s: seq<Task>, id: int, change: int, now: int): seq<Task> {
    Map(s, (t: Task) => Bump(t, id, change, now))
  }

  /** Change-priority clamps the sum into [0,5] and stamps `lastUpdated`, only on tasks with the id. */
  lemma ChangePrioritySpec(s: seq<Task>, id: int, change: int, now: int)
    ensures |Reprioritized(s, id, change, now)| == |s|
    ensures forall i :: 0 <= i < |s| && s[i].id != id ==> Reprioritized(s, id, change, now)[i] == s[i]
    ensures forall i :: 0 <= i < |s| && s[i].id == id ==>
      var r := Reprioritized(s, id, change, now)[i];
      r.(priority := s[i].priority, lastUpdated := s[i].lastUpdated) == s[i] &&
      r.priority == Clamp(s[i].priority + change) && 0 <= r.priority <= 5 && r.lastUpdated == now
  {
  }

  /** Some task of `s` has the id. */
  predicate HasId(s: seq<Task>, id: int) {
    exists k :: 0 <= k < |s| && s[k].id == id
  }

  /** The position of the task `s.find(t => t.id === id)` returns; `None` where `find` gives `undefined`. */
  function FirstIndex(s: seq<Task>, id: int): (r: Option<nat>)
    ensures r.Some? ==> r.value < |s| && s[r.value].id == id
    ensures r.Some? ==> forall j :: 0 <= j < r.value ==> s[j].id != id
    ensures r.None? <==> !HasId(s, id)
  {
    if s == [] then None
    else if s[0].id == id then Some(0)
    else match FirstIndex(s[1..], id)
      case None => None
      case Some(k) => Some(k + 1)
  }

  /** The drag-end rebuild `ids.map(id => s.find(t => t.id === id))`. */
  function Rebuild(s: seq<Task>, ids: seq<int>): (r: seq<Task>)
    requires forall i :: 0 <= i < |ids| ==> HasId(s, ids[i])
    ensures |r| == |ids|
    ensures forall i :: 0 <= i < |ids| ==> r[i].id == ids[i] && r[i] in s
    ensures forall i :: 0 <= i < |ids| ==> FirstIndex(s, ids[i]).Some? && r[i] == s[FirstIndex(s, ids[i]).value]
  {
    seq(|ids|, i requires 0 <= i < |ids| => s[FirstIndex(s, ids[i]).value])
  }

  /** A task whose id is not listed does not survive the rebuild. */
  lemma RebuildDrops(s: seq<Task>, ids: seq<int>, t: Task)
    requires forall i :: 0 <= i < |ids| ==> HasId(s, ids[i])
    requires t.id !in ids
    ensures t !in Rebuild(s, ids)
  {
  }

  predicate UniqueIds(s: seq<Task>) {
    forall i, j :: 0 <= i < j < |s| ==> s[i].id != s[j].id
  }

  function Ids(s: seq<Task>): seq<int> {
    Map(s, (t: Task) => t.id)
  }

  /** Rebuilding the list from its own id order gives the same list back, when ids are unique. */
  lemma RebuildIdentity(s: seq<Task>)
    requires UniqueIds(s)
    ensures forall i :: 0 <= i < |Ids(s)| ==> HasId(s, Ids(s)[i])
    ensures Rebuild(s, Ids(s)) == s
  {
    assert forall i :: 0 <= i < |s| ==> HasId(s, Ids(s)[i]);
    forall i | 0 <= i < |s| ensures Rebuild(s, Ids(s))[i] == s[i] {
      assert FirstIndex(s, s[i].id) == Some(i);
    }
  }

  /** Reordering [a, b, c] by the ids [b, a] gives [b, a]: the unlisted task is lost. */
  lemma RebuildExample(a: Task, b: Task, c: Task)
    requires a.id != b.id && b.id != c.id && a.id != c.id
    ensures HasId([a, b, c], b.id) && HasId([a, b, c], a.id)
    ensures Rebuild([a, b, c], [b.id, a.id]) == [b, a]
  {
    var s := [a, b, c];
    assert s[0].id == a.id && s[1].id == b.id;
    assert FirstIndex(s, a.id) == Some(0);
    assert FirstIndex(s, b.id) == Some(1) by {
      assert s[1..] == [b, c];
      assert FirstIndex(s[1..], b.id) == Some(0);
    }
  }

  /** Two tasks sharing an id: both positions get the first one and the second task is lost. */
  lemma RebuildDuplicateId(a: Task, b: Task)
    requires a.id == b.id && a != b
    ensures HasId([a, b], a.id)
    ensures Rebuild([a, b], [a.id, b.id]) == [a, a]
  {
    assert [a, b][0].id == a.id;
    assert FirstIndex([a, b], a.id) == Some(0);
  }
}
