# Todo-List task store, modelled in Dafny

The Todo-List page keeps one in-memory list of tasks. Each task has a text, a
category, an optional due date and time, a completion flag and a priority.
The page creates tasks from a submitted form. When it creates one, it scans
the lower-cased text against a fixed keyword table, and the first keyword
found decides the task's priority, border color and icon. The page toggles,
deletes and re-prioritises tasks by id. It sorts the list in place by
priority, rebuilds the list from the id order a drag gesture reports, and
shows status, search and category views of the list. It also derives
counters, an average priority, a heat-map hue per task and, once a minute,
the set of overdue tasks.

This project takes that logic out of the page's event handlers:

- `text.dfy` (module `Text`): `trim`, ASCII `toLowerCase`, and `includes` as substring search.
- `seqs.dfy` (module `Seqs`): `filter`, `map`, an `Option` for `find`, and the order-preserving subsequence relation.
- `tasks.dfy` (module `Tasks`): the task record, the keyword table, task creation and the priority clamp.
- `tasklist.dfy` (module `TaskList`): the new list that toggle, delete, change-priority and the drag reorder each assign.
- `sorting.dfy` (module `Sorting`): the sort comparator and the stable sort it defines, as a function. Also an in-place insertion sort on an array, proved to compute that function.
- `views.dfy` (module `Views`): the status filter, the search and the category filter.
- `presentation.dfy` (module `Presentation`): the counters, the average priority, the hue and the overdue test.
- `store.dfy` (module `Store`): class `TaskStore`. Its field `todos` is the page's global list, and its methods are the page's mutations plus the overdue sweep.

Clock readings (`Date.now()`, `new Date()`) are integer parameters supplied
by the caller. The parsing of `${dueDate}T${dueTime}` into an instant is a
caller-supplied function returning `None` for an invalid date. Timestamps are
integers throughout.

Four behaviours of the code a reader might not expect:

- A category is any non-empty string, namely the value of the category selector. It is not checked against the five named categories.
- Toggling a task does not refresh its `lastUpdated`.
- The keyword table is scanned in the order urgent, important, relax, fun, learn: the object's key order (Todo/script.js:22-28), not priority order.
- The category filter lower-cases the task's category but not the selected value.

## Model

| member | source | states |
|---|---|---|
| `Text.Trim` | Todo/script.js:61 | the result is the input with a run of leading and a run of trailing white space removed; it neither starts nor ends with white space; it is empty exactly when the input is all white space |
| `Text.ContainsMeansOccurs` | Todo/script.js:81 | `includes` holds exactly when the pattern occurs at some position of the text |
| `Tasks.KeywordPrioritiesInRange` | Todo/script.js:22-28 | every priority in the keyword table lies in [0,5] |
| `Tasks.FindKeyword` | Todo/script.js:81-82 | the scan returns the first table entry whose word occurs in the text, or nothing when no word occurs |
| `Tasks.CreateTask` | Todo/script.js:79-97 | the new task carries the given text, category, due fields and id, and the two clock readings as `createdAt` and `lastUpdated`; it is not completed; it has the priority, color and icon of the first matching keyword in table order, or 0, no color and no icon without a match; its priority lies in [0,5] |
| `Tasks.UrgentWins` | Todo/script.js:22-28 | a text containing "urgent" gets priority 5 whatever else it contains |
| `Tasks.RelaxBeatsFun` | Todo/script.js:25-26 | table order, not priority, decides: a text with "relax" and "fun" (and no earlier keyword) gets 1, not 2 |
| `Tasks.UrgentExample` | Todo/script.js:23 | "urgent: call bank" gets priority 5, color #ff4136 and the siren icon |
| `Tasks.Clamp` | Todo/script.js:183 | the result lies in [0,5]; it equals the input inside that range, 0 below it and 5 above it |
| `TaskList.ToggleSpec` | Todo/script.js:164-167 | same length and order; `completed` flips exactly on tasks with the id; every other field of every task, `lastUpdated` included, is unchanged |
| `TaskList.ToggleTwice` | Todo/script.js:164-167 | toggling the same id twice gives back the original list |
| `TaskList.ToggleAbsent` | Todo/script.js:164-167 | toggling an id no task has leaves the list unchanged |
| `TaskList.DeleteSpec` | Todo/script.js:173-174 | the result is an order-preserving subsequence; it holds no task with the id and every copy of every other task |
| `TaskList.DeleteIdempotent` | Todo/script.js:173-174 | deleting the same id twice removes nothing more the second time |
| `TaskList.DeleteAbsent` | Todo/script.js:173-174 | deleting an id no task has leaves the list unchanged |
| `TaskList.ChangePrioritySpec` | Todo/script.js:180-187 | same length and order; tasks with other ids unchanged; a task with the id gets priority clamp(old + change), in [0,5], and `lastUpdated` equal to the given instant, all its other fields unchanged |
| `TaskList.FirstIndex` | Todo/script.js:297 | `find` by id returns the first position holding that id, or nothing exactly when no task has it |
| `TaskList.Rebuild` | Todo/script.js:294-297 | the rebuilt list has one task per given id; its i-th task has the i-th id and is the first task with that id in the old list |
| `TaskList.RebuildDrops` | Todo/script.js:297 | a task whose id is not listed is not in the rebuilt list |
| `TaskList.RebuildIdentity` | Todo/script.js:297 | with unique ids, rebuilding from the list's own id order gives the same list |
| `TaskList.RebuildExample` | Todo/script.js:297 | [a, b, c] rebuilt from the ids [b, a] gives [b, a]; c is lost |
| `TaskList.RebuildDuplicateId` | Todo/script.js:297 | when two tasks share an id, both positions get the first task and the second task is lost |
| `Sorting.SortPermutes` | Todo/script.js:224 | the sorted list is a permutation of the list |
| `Sorting.SortOrdered` | Todo/script.js:224 | the sorted list has priorities non-increasing and, within one priority, `lastUpdated` non-increasing |
| `Sorting.SortStable` | Todo/script.js:224 | tasks with the same priority and `lastUpdated` keep their relative order |
| `Sorting.SortOfOrdered` | Todo/script.js:224 | a list already in that order is left unchanged |
| `Sorting.SortIdempotent` | Todo/script.js:224 | sorting a sorted list again changes nothing |
| `Sorting.InsertLastAtFront` | Todo/script.js:224 | a task that belongs before every task of an ordered prefix is inserted at its front |
| `Sorting.SortExample` | Todo/script.js:224 | [a(2, t1), b(5, t2), c(5, t3)] with t2 < t3 sorts to [c, b, a] |
| `Sorting.InsertInPlace` | Todo/script.js:224 | one insertion step on the array places the element at i among the sorted elements before it, leaving the rest of the array alone |
| `Sorting.SortInPlace` | Todo/script.js:224 | the array afterwards holds the stable sort of its old contents |
| `Views.ByStatus` | Todo/script.js:198-212 | "active" gives the incomplete tasks, "completed" the completed ones, anything else the whole list; always an order-preserving subsequence |
| `Views.StatusPartition` | Todo/script.js:201-207 | the active and completed views are disjoint, and together they hold every task of the list exactly once |
| `Views.Search` | Todo/script.js:214-221 | an order-preserving subsequence holding exactly the tasks whose lower-cased text or category contains the lower-cased term, each with all its copies |
| `Views.SearchEmpty` | Todo/script.js:215-219 | searching for "" gives the whole list in order |
| `Views.SearchIgnoresCase` | Todo/script.js:215 | a term and its lower-cased form find the same tasks |
| `Views.ByCategory` | Todo/script.js:228-235 | "all" gives the whole list; any other value gives exactly the tasks whose lower-cased category equals it, each with all its copies; always an order-preserving subsequence |
| `Presentation.Counters` | Todo/script.js:241-244 | the total is the list length; the completed count is the size of the completed view; their difference is the size of the active view |
| `Presentation.PrioritySumBounds` | Todo/script.js:249 | the priority sum of a list with priorities in [0,5] lies in [0, 5 times its length] |
| `Presentation.AveragePriority` | Todo/script.js:249 | 0 for the empty list; in [0,5] when every priority is |
| `Presentation.Hue` | Todo/script.js:193-196 | priorities 0 to 5 map into [50,200], 0 to 200 and 5 to 50 |
| `Presentation.HueDecreasing` | Todo/script.js:194 | a higher priority gets a strictly smaller hue |
| `Presentation.SweepSkipsDeleted` | Todo/script.js:273-283 | after a delete, the sweep reports no task with the deleted id |
| `Presentation.SweepSkipsCompleted` | Todo/script.js:273-283 | after toggling an id whose tasks are all incomplete, the sweep reports no task with that id |
| `Presentation.OverdueStays` | Todo/script.js:276-278 | a task overdue now is overdue at every later instant |
| `Store.TaskStore.constructor` | Todo/script.js:16 | the store starts empty and valid |
| `Store.TaskStore.Add` | Todo/script.js:59-77 | with non-empty trimmed text and non-empty category, exactly the created task is appended at the end; otherwise the list is unchanged; priorities stay in [0,5] |
| `Store.TaskStore.ToggleComplete` | Todo/script.js:164-171 | the list becomes the toggled list; priorities stay in [0,5] |
| `Store.TaskStore.Delete` | Todo/script.js:173-178 | the list becomes the list without the id's tasks; priorities stay in [0,5] |
| `Store.TaskStore.ChangePriority` | Todo/script.js:180-191 | the list becomes the re-prioritised list; priorities stay in [0,5] |
| `Store.TaskStore.Reorder` | Todo/script.js:293-299 | the list becomes the rebuild from the reported ids; priorities stay in [0,5] |
| `Store.TaskStore.SortByPriority` | Todo/script.js:223-226 | the list is replaced by its stable sort, which is a permutation of it and ordered by priority then `lastUpdated`, both descending |
| `Store.TaskStore.OverdueSweep` | Todo/script.js:273-283 | the tasks the sweep alerts about are exactly the overdue tasks, in list order |

## Left out

- DOM work: element lookup, listeners, the category selectors, the input highlighting and the list markup. This is UI.
- Persistence: the `localStorage` load and save and the JSON (de)serialisation are I/O. A reload does not round-trip faithfully, because `Date` fields come back as strings.
- `Store.TaskStore.constructor`: starts from the empty list; the load of a saved list is not modelled.
- The due-time alarm (`setAlarm`): scheduling and `alert` are side effects. Its callback tests the task object captured at creation, which later toggles replace with copies, so nothing is claimed about it honouring a later completion.
- The sweep's timer and its `alert` calls: `Store.TaskStore.OverdueSweep` returns the tasks it would alert about instead.
- Date handling: `formatDueDate`'s locale formatting and the parsing of the due date and time. Parsing is a caller-supplied function.
- The `Sortable` drag library is foreign code. Only the rebuild of the list from the reported id order is modelled.
- Visual side effects: the background CSS variables, the heat-map style property and the show animation.
- `Text.Lower`: lower-cases ASCII letters only, where `toLowerCase` maps all of Unicode.
- `Presentation.AveragePriority`: exact real division, where the source uses floating point. The source's `NaN || 0` on an empty list is the 0 case.
- `Sorting.Compare`: timestamps are integers. After a reload `lastUpdated` is a string, the subtraction gives `NaN`, and ties are then kept in list order; that case is not modelled. A task re-prioritised after a reload gets a numeric `lastUpdated` again, mixing numbers and strings; the comparator is then inconsistent and the order `sort` produces is implementation-defined.
- `Store.TaskStore.Reorder`: requires every reported id to belong to a stored task. The page reports only ids of rendered tasks, and every rendered task is stored. An unknown id would put `undefined` into the list, which the task type cannot hold.
- Task ids are integers supplied by the caller. Collisions between `Date.now()` readings are allowed, and `TaskList.RebuildDuplicateId` shows their effect on a reorder.
