/**
 The three read-only views of the list: the status filter, the search and the
 category filter. None of them changes the list; each returns a subsequence
 of it in list order.
 */
module Views {
  import opened Text
  import opened Seqs
  import opened Tasks

  predicate IsDone(t: Task) {
    t.completed
  }

  predicate IsActive(t: Task) {
    !t.completed
  }

  /** The filter buttons: "active", "completed", and every other value shows the whole list. */
  function ByStatus(s: seq<Task>, filter: string): (r: seq<Task>)
    ensures IsSubseq(r, s)
    ensures filter == "active" ==> forall t :: t in r <==> t in s && !t.completed
    ensures filter == "completed" ==> forall t :: t in r <==> t in s && t.completed
    ensures filter != "active" && filter != "completed" ==> r == s
  {
    FilterIsSubseq(s, IsActive);
    FilterIsSubseq(s, IsDone);
    SubseqRefl(s);
    if filter == "active" then Filter(s, IsActive)
    else if filter == "completed" then Filter(s, IsDone)
    else s
  }

  /** The active and completed views are disjoint and together hold every task of the list. */
  lemma StatusPartition(s: seq<Task>)
    ensures multiset(ByStatus(s, "active")) + multiset(ByStatus(s, "completed")) == multiset(s)
    ensures |ByStatus(s, "active")| + |ByStatus(s, "completed")| == |s|
    ensures forall t :: !(t in ByStatus(s, "active") && t in ByStatus(s, "completed"))
  {
    FilterPartition(s, IsActive, IsDone);
  }

  /** A task matches a lower-cased term when its text or its category, lower-cased, holds it. */
  predicate Matches(t: Task, lowered: string) {
    Contains(Lower(t.text), lowered) || Contains(Lower(t.category), lowered)
  }

  function MatchesTerm(lowered: string): Task -> bool {
    (t: Task) => Matches(t, lowered)
  }

  /** The search box: the tasks whose text or category holds the term, ignoring case. */
  function Search(s: seq<Task>, term: string): (r: seq<Task>)
    ensures IsSubseq(r, s)
    ensures forall t :: t in r ==> t in s && Matches(t, Lower(term))
    ensures forall t :: t in s && Matches(t, Lower(term)) ==> t in r
    ensures forall t :: multiset(r)[t] == if Matches(t, Lower(term)) then multiset(s)[t] else 0
  {
    FilterIsSubseq(s, MatchesTerm(Lower(term)));
    FilterCounts(s, MatchesTerm(Lower(term)));
    Filter(s, MatchesTerm(Lower(term)))
  }

  /** Searching for the empty term shows the whole list, in order. */
  lemma SearchEmpty(s: seq<Task>)
    ensures Search(s, "") == s
  {
    forall t | t in s ensures MatchesTerm(Lower(""))(t) {
      ContainsEmpty(Lower(t.text));
    }
    FilterAll(s, MatchesTerm(Lower("")));
  }

  /** Case does not matter: a term and its lower-cased form find the same tasks. */
  lemma SearchIgnoresCase(s: seq<Task>, term: string)
    ensures Search(s, Lower(term)) == Search(s, term)
  {
    LowerIdempotent(term);
  }

  /** The category selector: "all" shows the whole list, any other value the tasks whose
      lower-cased category equals it. */
  function ByCategory(s: seq<Task>, selected: string): (r: seq<Task>)
    ensures IsSubseq(r, s)
    ensures selected == "all" ==> r == s
    ensures selected != "all" ==> forall t :: t in r <==> t in s && Lower(t.category) == selected
    ensures selected != "all" ==>
      forall t :: multiset(r)[t] == if Lower(t.category) == selected then multiset(s)[t] else 0
  {
    SubseqRefl(s);
    var inCategory := (t: Task) => Lower(t.category) == selected;
    FilterIsSubseq(s, inCategory);
    FilterCounts(s, inCategory);
    if selected == "all" then s else Filter(s, inCategory)
  }
}
