/**
 The task record and the rules that build one: the keyword table scanned when
 a task is created, and the clamp applied when its priority changes.
 Clock readings (`Date.now()`, `new Date()`) are integer instants passed in by
 the caller.
 */
module Tasks {
  import opened Text
  import opened Seqs

  /** One entry of the list; `color` and `icon` are `None` where the source stores `null`. */
  datatype Task = Task(
    id: int,
    text: string,
    completed: bool,
    createdAt: int,
    priority: int,
    color: Option<string>,
    icon: Option<string>,
    lastUpdated: int,
    category: string,
    dueDate: string,
    dueTime: string)

  datatype Effect = Effect(priority: int, color: string, icon: string)

  datatype Keyword = Keyword(word: string, effect: Effect)

  /** The keyword table in the order its keys are enumerated: table order, not priority order. */
  const Keywords: seq<Keyword> := [
    Keyword("urgent", Effect(5, "#ff4136", "\U{1F6A8}")),
    Keyword("important", Effect(4, "#ff851b", "\U{2757}")),
    Keyword("relax", Effect(1, "#0074d9", "\U{1F60C}")),
    Keyword("fun", Effect(2, "#2ecc40", "\U{1F389}")),
    Keyword("learn", Effect(3, "#b10dc9", "\U{1F4DA}"))
  ]

  lemma KeywordPrioritiesInRange()
    ensures forall k :: 0 <= k < |Keywords| ==> 0 <= Keywords[k].effect.priority <= 5
  {
  }

  /** Entry `k` is the first entry of the table whose word occurs in `lowered`. */
  predicate IsFirstMatch(lowered: string, k: int) {
    0 <= k < |Keywords| && Contains(lowered, Keywords[k].word) &&
    forall j :: 0 <= j < k ==> !Contains(lowered, Keywords[j].word)
  }

  /** No word of the table occurs in `lowered`. */
  predicate NoMatch(lowered: string) {
    forall j :: 0 <= j < |Keywords| ==> !Contains(lowered, Keywords[j].word)
  }

  /** The scan of the table from entry `i` on, returning the first entry that matches. */
  function FindKeyword(lowered: string, i: nat): (r: Option<nat>)
    requires i <= |Keywords|
    ensures r.Some? ==> i <= r.value < |Keywords| && Contains(lowered, Keywords[r.value].word)
    ensures r.Some? ==> forall j :: i <= j < r.value ==> !Contains(lowered, Keywords[j].word)
    ensures r.None? ==> forall j :: i <= j < |Keywords| ==> !Contains(lowered, Keywords[j].word)
    decreases |Keywords| - i
  {
    if i == |Keywords| then None
    else if Contains(lowered, Keywords[i].word) then Some(i)
    else FindKeyword(lowered, i + 1)
  }

  /** Builds the new task: the text, the caller's id, the two clock readings taken for
      `createdAt` and `lastUpdated`, and the first keyword's effect. */
  function CreateTask(text: string, category: string, dueDate: string, dueTime: string,
                      id: int, created: int, updated: int): (t: Task)
    ensures t.id == id && t.text == text && t.category == category
    ensures t.dueDate == dueDate && t.dueTime == dueTime
    ensures !t.completed && t.createdAt == created && t.lastUpdated == updated
    ensures 0 <= t.priority <= 5
    ensures forall k :: IsFirstMatch(Lower(text), k) ==>
      t.priority == Keywords[k].effect.priority &&
      t.color == Some(Keywords[k].effect.color) &&
      t.icon == Some(Keywords[k].effect.icon)
    ensures NoMatch(Lower(text)) ==> t.priority == 0 && t.color == None && t.icon == None
  {
    KeywordPrioritiesInRange();
    match FindKeyword(Lower(text), 0)
    case Some(k) =>
      var e := Keywords[k].effect;
      Task(id, text, false, created, e.priority, Some(e.color), Some(e.icon), updated, category, dueDate, dueTime)
    case None =>
      Task(id, text, false, created, 0, None, None, updated, category, dueDate, dueTime)
  }

  /** A text holding "urgent" always gets priority 5, whatever other keywords it holds. */
  lemma UrgentWins(text: string, category: string, dueDate: string, dueTime: string, id: int, created: int, updated: int)
    requires Contains(Lower(text), "urgent")
    ensures CreateTask(text, category, dueDate, dueTime, id, created, updated).priority == 5
  {
    assert IsFirstMatch(Lower(text), 0);
  }

  /** "urgent: call bank" gets the first entry's priority, color and icon. */
  lemma UrgentExample(id: int, created: int, updated: int)
    ensures var t := CreateTask("urgent: call bank", "work", "", "", id, created, updated);
      t.priority == 5 && t.color == Some("#ff4136") && t.icon == Some("\U{1F6A8}")
  {
    var low := Lower("urgent: call bank");
    assert low == "urgent: call bank";
    assert StartsWith(low, "urgent");
    assert IsFirstMatch(low, 0);
  }

  /** The table is scanned in order, not by priority: a text holding both "relax" (1) and
      "fun" (2), and neither of the two words listed before "relax", gets priority 1. */
  lemma RelaxBeatsFun(text: string, category: string, dueDate: string, dueTime: string, id: int, created: int, updated: int)
    requires Contains(Lower(text), "relax") && Contains(Lower(text), "fun")
    requires !Contains(Lower(text), "urgent") && !Contains(Lower(text), "important")
    ensures CreateTask(text, category, dueDate, dueTime, id, created, updated).priority == 1
  {
    assert IsFirstMatch(Lower(text), 2);
  }

  /** `Math.max(0, Math.min(5, x))`. */
  function Clamp(x: int): (r: int)
    ensures 0 <= r <= 5
    ensures 0 <= x <= 5 ==> r == x
    ensures x < 0 ==> r == 0
    ensures x > 5 ==> r == 5
  {
    var upper := if 5 < x then 5 else x;
    if 0 < upper then upper else 0
  }
}
