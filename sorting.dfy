/**
 Sort-by-priority: the comparator handed to `Array.prototype.sort`, the
 stable sort that function defines (insertion sort, as a function), and an
 in-place insertion sort on an array that computes exactly that function.
 */
module Sorting {
  import opened Seqs
  import opened Tasks

  /** `b.priority - a.priority || b.lastUpdated - a.lastUpdated`: negative puts `a` first. */
  function Compare(a: Task, b: Task): int {
    var byPriority := b.priority - a.priority;
    if byPriority != 0 then byPriority else b.lastUpdated - a.lastUpdated
  }

  /** `a` belongs strictly before `b`. */
  predicate Before(a: Task, b: Task) {
    Compare(a, b) < 0
  }

  /** Priorities never increase along `r`, and within one priority neither does `lastUpdated`. */
  ghost predicate Ordered(r: seq<Task>) {
    forall i, j :: 0 <= i < j < |r| ==>
      r[i].priority >= r[j].priority &&
      (r[i].priority == r[j].priority ==> r[i].lastUpdated >= r[j].lastUpdated)
  }

  /** Inserts `x` behind `r`, moving it forward past the tasks it belongs strictly before. */
  function InsertLast(r: seq<Task>, x: Task): seq<Task>
    decreases |r|
  {
    if r == [] || !Before(x, r[|r| - 1]) then r + [x]
    else InsertLast(r[..|r| - 1], x) + [r[|r| - 1]]
  }

  /** The stable sort by `Compare`: each task in turn is inserted behind those before it. */
  function Sort(s: seq<Task>): seq<Task>
    decreases |s|
  {
    if s == [] then [] else InsertLast(Sort(s[..|s| - 1]), s[|s| - 1])
  }

  lemma {:induction false} InsertLastPermutes(r: seq<Task>, x: Task)
    ensures multiset(InsertLast(r, x)) == multiset(r) + multiset{x}
    decreases |r|
  {
    if r != [] && Before(x, r[|r| - 1]) {
      InsertLastPermutes(r[..|r| - 1], x);
      assert r == r[..|r| - 1] + [r[|r| - 1]];
    }
  }

  /** `a` may stand before `b` in an ordered list. */
  predicate NotAfter(a: Task, b: Task) {
    a.priority > b.priority || (a.priority == b.priority && a.lastUpdated >= b.lastUpdated)
  }

  lemma OrderedAppend(r: seq<Task>, y: Task)
    requires Ordered(r)
    requires forall i :: 0 <= i < |r| ==> NotAfter(r[i], y)
    ensures Ordered(r + [y])
  {
  }

  lemma InsertLastMembers(r: seq<Task>, x: Task)
    ensures forall e :: e in InsertLast(r, x) ==> e in r || e == x
  {
    InsertLastPermutes(r, x);
    forall e | e in InsertLast(r, x) ensures e in r || e == x {
      assert e in multiset(InsertLast(r, x));
    }
  }

  lemma {:induction false} InsertLastOrdered(r: seq<Task>, x: Task)
    requires Ordered(r)
    ensures Ordered(InsertLast(r, x))
    decreases |r|
  {
    if r == [] {
    } else {
      var front, last := r[..|r| - 1], r[|r| - 1];
      assert forall i :: 0 <= i < |front| ==> NotAfter(front[i], last);
      if Before(x, last) {
        assert Ordered(front);
        InsertLastOrdered(front, x);
        var m := InsertLast(front, x);
        InsertLastMembers(front, x);
        forall i | 0 <= i < |m| ensures NotAfter(m[i], last) {
          assert m[i] in m;
        }
        OrderedAppend(m, last);
      } else {
        assert NotAfter(last, x);
        OrderedAppend(r, x);
      }
    }
  }

  /** The sort is a permutation of its input. */
  lemma {:induction false} SortPermutes(s: seq<Task>)
    ensures multiset(Sort(s)) == multiset(s)
    decreases |s|
  {
    if s != [] {
      SortPermutes(s[..|s| - 1]);
      InsertLastPermutes(Sort(s[..|s| - 1]), s[|s| - 1]);
      assert s == s[..|s| - 1] + [s[|s| - 1]];
    }
  }

  /** The sort's result is ordered by priority, then by `lastUpdated`, both descending. */
  lemma {:induction false} SortOrdered(s: seq<Task>)
    ensures Ordered(Sort(s))
    decreases |s|
  {
    if s != [] {
      SortOrdered(s[..|s| - 1]);
      InsertLastOrdered(Sort(s[..|s| - 1]), s[|s| - 1]);
    }
  }

  /** An ordered list is left as it is. */
  lemma {:induction false} SortOfOrdered(r: seq<Task>)
    requires Ordered(r)
    ensures Sort(r) == r
    decreases |r|
  {
    if r != [] {
      var front, last := r[..|r| - 1], r[|r| - 1];
      assert Ordered(front) by {
        forall i, j | 0 <= i < j < |front|
          ensures front[i].priority >= front[j].priority &&
            (front[i].priority == front[j].priority ==> front[i].lastUpdated >= front[j].lastUpdated)
        {
          assert front[i] == r[i] && front[j] == r[j];
        }
      }
      SortOfOrdered(front);
      if front != [] {
        assert front[|front| - 1] == r[|r| - 2];
        assert !Before(last, front[|front| - 1]);
      }
      assert Sort(r) == InsertLast(front, last);
      assert r == front + [last];
    }
  }

  /** Sorting a second time changes nothing. */
  lemma SortIdempotent(s: seq<Task>)
    ensures Sort(Sort(s)) == Sort(s)
  {
    SortOrdered(s);
    SortOfOrdered(Sort(s));
  }

  /** The tasks that share one sort key. */
  function SameKey(priority: int, lastUpdated: int): Task -> bool {
    (t: Task) => t.priority == priority && t.lastUpdated == lastUpdated
  }

  lemma {:induction false} InsertLastStable(r: seq<Task>, x: Task, priority: int, lastUpdated: int)
    ensures Filter(InsertLast(r, x), SameKey(priority, lastUpdated)) ==
      Filter(r, SameKey(priority, lastUpdated)) + Filter([x], SameKey(priority, lastUpdated))
    decreases |r|
  {
    var p := SameKey(priority, lastUpdated);
    if r == [] || !Before(x, r[|r| - 1]) {
      FilterAppend(r, [x], p);
    } else {
      var front, last := r[..|r| - 1], r[|r| - 1];
      var inserted := InsertLast(front, x);
      assert r == front + [last];
      assert InsertLast(r, x) == inserted + [last];
      InsertLastStable(front, x, priority, lastUpdated);
      FilterAppend(inserted, [last], p);
      FilterAppend(front, [last], p);
      assert !(p(x) && p(last));
      SinglesCommute(Filter(front, p), x, last, p);
    }
  }

  /** Two single-element filters commute when at most one of them keeps its element. */
  lemma SinglesCommute(f: seq<Task>, x: Task, y: Task, p: Task -> bool)
    requires !(p(x) && p(y))
    ensures f + Filter([x], p) + Filter([y], p) == f + Filter([y], p) + Filter([x], p)
  {
    assert [x][1..] == [] && [y][1..] == [];
  }

  /** The sort is stable: tasks with equal keys keep their relative order. */
  lemma {:induction false} SortStable(s: seq<Task>, priority: int, lastUpdated: int)
    ensures Filter(Sort(s), SameKey(priority, lastUpdated)) == Filter(s, SameKey(priority, lastUpdated))
    decreases |s|
  {
    if s != [] {
      var front, last := s[..|s| - 1], s[|s| - 1];
      SortStable(front, priority, lastUpdated);
      InsertLastStable(Sort(front), last, priority, lastUpdated);
      FilterAppend(front, [last], SameKey(priority, lastUpdated));
      assert s == front + [last];
    }
  }

  lemma SortOne(a: Task)
    ensures Sort([a]) == [a]
  {
    assert [a][..0] == [];
  }

  lemma SortTwo(a: Task, b: Task)
    requires Before(b, a)
    ensures Sort([a, b]) == [b, a]
  {
    assert [a, b][..1] == [a];
    SortOne(a);
    assert [a][..0] == [];
    assert InsertLast([a], b) == InsertLast([], b) + [a];
  }

  /** [a(2, t1), b(5, t2), c(5, t3)] with t2 < t3 sorts to [c, b, a]. */
  lemma SortExample(a: Task, b: Task, c: Task)
    requires a.priority == 2 && b.priority == 5 && c.priority == 5 && b.lastUpdated < c.lastUpdated
    ensures Sort([a, b, c]) == [c, b, a]
  {
    SortTwo(a, b);
    assert [a, b, c][..2] == [a, b];
    assert Sort([a, b, c]) == InsertLast([b, a], c);
    InsertLastAtFront([b, a], c);
  }

  /** A task that belongs before every task of `r` is inserted at its front. */
  lemma {:induction false} InsertLastAtFront(r: seq<Task>, x: Task)
    requires forall i :: 0 <= i < |r| ==> Before(x, r[i])
    ensures InsertLast(r, x) == [x] + r
    decreases |r|
  {
    if r != [] {
      InsertLastAtFront(r[..|r| - 1], x);
      assert r == r[..|r| - 1] + [r[|r| - 1]];
    }
  }

  /** Swapping `x` at `j` with the predecessor it belongs before keeps the insertion's target. */
  lemma SwapStep(b: seq<Task>, j: nat, i: nat, x: Task)
    requires 0 < j <= i < |b| && b[j] == x && Before(x, b[j - 1])
    ensures var c := b[j - 1 := x][j := b[j - 1]];
      InsertLast(c[..j - 1], x) + c[j..i + 1] == InsertLast(b[..j], x) + b[j + 1..i + 1] &&
      c[i + 1..] == b[i + 1..] && c[j - 1] == x
  {
    var c := b[j - 1 := x][j := b[j - 1]];
    assert b[..j] == c[..j - 1] + [b[j - 1]];
    assert c[j..i + 1] == [b[j - 1]] + b[j + 1..i + 1];
  }

  /** Once `x` at `j` no longer belongs before its predecessor, the insertion is done. */
  lemma StopStep(b: seq<Task>, j: nat, i: nat, x: Task)
    requires j <= i < |b| && b[j] == x && (j == 0 || !Before(x, b[j - 1]))
    ensures b[..i + 1] == InsertLast(b[..j], x) + b[j + 1..i + 1]
  {
    assert InsertLast(b[..j], x) == b[..j] + [x];
    assert b[..i + 1] == b[..j] + [x] + b[j + 1..i + 1];
  }

  /** One insertion step: the task at `i` moves forward by adjacent swaps while it belongs
      strictly before its predecessor. */
  method InsertInPlace(a: array<Task>, i: nat)
    requires i < a.Length
    modifies a
    ensures a[..i + 1] == InsertLast(old(a[..i]), old(a[i]))
    ensures a[i + 1..] == old(a[i + 1..])
  {
    var x := a[i];
    ghost var target := InsertLast(a[..i], x);
    var j := i;
    while j > 0 && Before(x, a[j - 1])
      invariant 0 <= j <= i
      invariant a[j] == x
      invariant InsertLast(a[..j], x) + a[j + 1..i + 1] == target
      invariant a[i + 1..] == old(a[i + 1..])
    {
      SwapStep(a[..], j, i, x);
      a[j - 1], a[j] := a[j], a[j - 1];
      j := j - 1;
    }
    StopStep(a[..], j, i, x);
  }

  /** The in-place sort: one insertion step per position, left to right. */
  method SortInPlace(a: array<Task>)
    modifies a
    ensures a[..] == Sort(old(a[..]))
  {
    ghost var s := a[..];
    var i := 0;
    while i < a.Length
      invariant 0 <= i <= a.Length
      invariant a[..i] == Sort(s[..i])
      invariant a[i..] == s[i..]
    {
      assert a[i] == s[i] by { assert a[i..][0] == s[i..][0]; }
      assert a[i + 1..] == s[i + 1..] by { assert a[i + 1..] == a[i..][1..]; }
      InsertInPlace(a, i);
      assert s[..i + 1][..i] == s[..i];
      assert Sort(s[..i + 1]) == InsertLast(Sort(s[..i]), s[i]);
      i := i + 1;
    }
    assert a[..] == a[..a.Length] && s == s[..a.Length];
  }
}
