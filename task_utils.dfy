/** The filter / group / order utilities of src/utils/tasks.ts. */
module TaskUtils {
  import opened Types
  import opened Seqs
  import opened Text

  // ---------------------------------------------------------------------
  // Lookups by id (`findIndex` / `find`)

  /** `tasks.findIndex(t => t.id === id)`: the first index holding `id`, or
      -1. */
  function FindIndex(tasks: seq<Task>, id: string): (r: int)
    ensures -1 <= r < |tasks|
    ensures r >= 0 ==> tasks[r].id == id
    ensures forall j :: 0 <= j < |tasks| && (r == -1 || j < r) ==> tasks[j].id != id
  {
    if tasks == [] then -1
    else if tasks[0].id == id then 0
    else
      var r := FindIndex(tasks[1..], id);
      if r == -1 then -1 else r + 1
  }

  /** `tasks.find(t => t.id === id)`. */
  function FindTask(tasks: seq<Task>, id: string): Option<Task>
  {
    var i := FindIndex(tasks, id);
    if i < 0 then None else Some(tasks[i])
  }

  /** `find` returns the first task with the id, and returns nothing exactly
      when no task has it. */
  lemma FindTaskSpec(tasks: seq<Task>, id: string)
    ensures FindTask(tasks, id).None? <==> forall t :: t in tasks ==> t.id != id
    ensures FindTask(tasks, id).Some? ==>
      exists i :: 0 <= i < |tasks| && tasks[i] == FindTask(tasks, id).value && tasks[i].id == id
        && forall j :: 0 <= j < i ==> tasks[j].id != id
  {
    var i := FindIndex(tasks, id);
    if i >= 0 {
      assert tasks[i] in tasks;
    }
  }

  // ---------------------------------------------------------------------
  // applyFilters

  /** The search criterion as the source evaluates it: the lower-cased,
      UNTRIMMED query is looked for in the lower-cased title, description
      and each tag. */
  predicate QueryMatches(t: Task, query: string)
  {
    Contains(ToLower(t.title), query)
    || Contains(ToLower(t.description), query)
    || (exists tag :: tag in t.tags && Contains(ToLower(tag), query))
  }

  /** The predicate passed to `tasks.filter`, with the source's early
      returns in the source's order. */
  predicate Keep(f: Filters, t: Task)
  {
    if |f.assignees| > 0 && IsTruthy(t.assigneeId) && t.assigneeId.value !in f.assignees then false
    else if |f.tags| > 0 && !(exists tag :: tag in t.tags && tag in f.tags) then false
    else if |f.priorities| > 0 && t.priority !in f.priorities then false
    else if Trim(f.query) != "" && !QueryMatches(t, ToLower(f.query)) then false
    else true
  }

  function Keeps(f: Filters): Task -> bool
  {
    (t: Task) => Keep(f, t)
  }

  /** `applyFilters(tasks, filters)`. */
  function ApplyFilters(tasks: seq<Task>, f: Filters): seq<Task>
  {
    Filter(Keeps(f), tasks)
  }

  // The four criteria, each stated on its own.

  /** A task without a (truthy) assignee always passes the assignee
      criterion. */
  ghost predicate AssigneeOk(f: Filters, t: Task)
  {
    f.assignees == [] || t.assigneeId.None? || t.assigneeId == Some("")
    || t.assigneeId.value in f.assignees
  }

  /** The task shares at least one tag with the filter. */
  ghost predicate TagOk(f: Filters, t: Task)
  {
    f.tags == [] || exists tag :: tag in t.tags && tag in f.tags
  }

  ghost predicate PriorityOk(f: Filters, t: Task)
  {
    f.priorities == [] || t.priority in f.priorities
  }

  /** The lower-cased query `q` occurs somewhere in the lower-cased title,
      description or one of the tags. */
  ghost predicate OccursInTask(t: Task, q: string)
  {
    (exists i :: OccursAt(ToLower(t.title), q, i))
    || (exists i :: OccursAt(ToLower(t.description), q, i))
    || (exists tag, i :: tag in t.tags && OccursAt(ToLower(tag), q, i))
  }

  /** A blank query imposes nothing; otherwise the lower-cased UNTRIMMED
      query must occur in the task. */
  ghost predicate QueryOk(f: Filters, t: Task)
  {
    IsBlank(f.query) || OccursInTask(t, ToLower(f.query))
  }

  lemma QueryMatchesIffOccurs(t: Task, q: string)
    ensures QueryMatches(t, q) <==> OccursInTask(t, q)
  {
    ContainsIffOccurs(ToLower(t.title), q);
    ContainsIffOccurs(ToLower(t.description), q);
    forall tag | tag in t.tags ensures Contains(ToLower(tag), q) <==> exists i :: OccursAt(ToLower(tag), q, i) {
      ContainsIffOccurs(ToLower(tag), q);
    }
  }

  /** The source's early-return predicate is exactly the conjunction of the
      four independent criteria. */
  lemma KeepIffCriteria(f: Filters, t: Task)
    ensures Keep(f, t) <==> AssigneeOk(f, t) && TagOk(f, t) && PriorityOk(f, t) && QueryOk(f, t)
  {
    TrimEmptyIffBlank(f.query);
    QueryMatchesIffOccurs(t, ToLower(f.query));
  }

  /** `applyFilters` keeps exactly the tasks meeting all four criteria, and
      keeps them in their original order. */
  lemma ApplyFiltersSpec(tasks: seq<Task>, f: Filters)
    ensures SubsequenceOf(ApplyFilters(tasks, f), tasks)
    ensures forall t :: t in ApplyFilters(tasks, f) <==>
      t in tasks && AssigneeOk(f, t) && TagOk(f, t) && PriorityOk(f, t) && QueryOk(f, t)
  {
    FilterIsSubsequence(Keeps(f), tasks);
    forall t ensures Keeps(f)(t) <==> AssigneeOk(f, t) && TagOk(f, t) && PriorityOk(f, t) && QueryOk(f, t) {
      KeepIffCriteria(f, t);
    }
  }

  /** With no assignee, tag or priority selected and a blank query, nothing
      is filtered out. */
  lemma ApplyFiltersNoCriteria(tasks: seq<Task>, f: Filters)
    requires f.assignees == [] && f.tags == [] && f.priorities == []
    requires IsBlank(f.query)
    ensures ApplyFilters(tasks, f) == tasks
  {
    TrimEmptyIffBlank(f.query);
    FilterAll(Keeps(f), tasks);
  }

  /** The surrounding spaces of a query are part of what is searched for:
      " bug " does not find a task titled "bug" although the trimmed query
      is not blank. */
  lemma UntrimmedQueryExample()
    ensures !Keep(Filters([], [], [], " bug "),
                  Task("t1", "bug", "", None, Todo, Low, [], None, "", "", 1000.0))
  {
    var t := Task("t1", "bug", "", None, Todo, Low, [], None, "", "", 1000.0);
    assert Trim(" bug ") == "bug";
    assert ToLower(" bug ") == " bug ";
    assert ToLower("bug") == "bug";
    ContainsIffOccurs("bug", " bug ");
    ContainsIffOccurs("", " bug ");
  }

  // ---------------------------------------------------------------------
  // sortByOrder, groupByStatus, getTaskCountsByStatus

  function OrderKey(t: Task): real
  {
    t.order
  }

  /** `[...tasks].sort((a, b) => a.order - b.order)`, a stable sort. */
  function SortByOrder(tasks: seq<Task>): seq<Task>
  {
    SortBy(OrderKey, tasks)
  }

  /** `SortByOrder` returns an ascending permutation of its input in which
      tasks with equal order keep their input order. */
  lemma SortByOrderSpec(tasks: seq<Task>)
    ensures SortedBy(OrderKey, SortByOrder(tasks))
    ensures multiset(SortByOrder(tasks)) == multiset(tasks)
    ensures forall k :: Filter(KeyIs(OrderKey, k), SortByOrder(tasks)) == Filter(KeyIs(OrderKey, k), tasks)
  {
    SortBySorted(OrderKey, tasks);
    SortByPermutes(OrderKey, tasks);
    forall k ensures Filter(KeyIs(OrderKey, k), SortByOrder(tasks)) == Filter(KeyIs(OrderKey, k), tasks) {
      SortByStable(OrderKey, tasks, k);
    }
  }

  /** Any stable ascending sort of the tasks by order is `SortByOrder`: the
      sort the host engine performs gives exactly this result. */
  lemma SortByOrderUnique(tasks: seq<Task>, r: seq<Task>)
    requires SortedBy(OrderKey, r)
    requires forall k :: Filter(KeyIs(OrderKey, k), r) == Filter(KeyIs(OrderKey, k), tasks)
    ensures r == SortByOrder(tasks)
  {
    StableSortIsSortBy(OrderKey, tasks, r);
  }

  function HasStatus(s: Status): Task -> bool
  {
    (t: Task) => t.status == s
  }

  /** `tasks.filter(t => t.status === s)`. */
  function OfStatus(tasks: seq<Task>, s: Status): seq<Task>
  {
    Filter(HasStatus(s), tasks)
  }

  /** The four buckets of `GroupedTasks`. */
  datatype GroupedTasks = GroupedTasks(todo: seq<Task>, inProgress: seq<Task>, inReview: seq<Task>, done: seq<Task>)
  {
    /** `grouped[status]`. */
    function Bucket(s: Status): seq<Task>
    {
      match s
      case Todo => todo
      case InProgress => inProgress
      case InReview => inReview
      case Done => done
    }
  }

  /** What `groupByStatus` returns. */
  function Grouped(tasks: seq<Task>): GroupedTasks
  {
    GroupedTasks(SortByOrder(OfStatus(tasks, Todo)), SortByOrder(OfStatus(tasks, InProgress)),
                 SortByOrder(OfStatus(tasks, InReview)), SortByOrder(OfStatus(tasks, Done)))
  }

  /** One step of the bucketing loop for bucket `s`: after handling
      `tasks[i]`, the bucket plus what is left to scan is still the whole
      status filter. */
  lemma PushStep(bucket: seq<Task>, tasks: seq<Task>, i: nat, s: Status)
    requires i < |tasks|
    requires bucket + OfStatus(tasks[i..], s) == OfStatus(tasks, s)
    ensures (if tasks[i].status == s then bucket + [tasks[i]] else bucket) + OfStatus(tasks[i + 1..], s)
            == OfStatus(tasks, s)
  {
    assert tasks[i..] == [tasks[i]] + tasks[i + 1..];
    FilterCons(HasStatus(s), tasks[i], tasks[i + 1..]);
  }

  /** `groupByStatus`: push every task into the bucket of its status, then
      sort each bucket by order. */
  method GroupByStatus(tasks: seq<Task>) returns (g: GroupedTasks)
    ensures g == Grouped(tasks)
  {
    var todo, inProgress, inReview, done := [], [], [], [];
    var i := 0;
    while i < |tasks|
      invariant 0 <= i <= |tasks|
      invariant todo + OfStatus(tasks[i..], Todo) == OfStatus(tasks, Todo)
      invariant inProgress + OfStatus(tasks[i..], InProgress) == OfStatus(tasks, InProgress)
      invariant inReview + OfStatus(tasks[i..], InReview) == OfStatus(tasks, InReview)
      invariant done + OfStatus(tasks[i..], Done) == OfStatus(tasks, Done)
    {
      var t := tasks[i];
      PushStep(todo, tasks, i, Todo);
      PushStep(inProgress, tasks, i, InProgress);
      PushStep(inReview, tasks, i, InReview);
      PushStep(done, tasks, i, Done);
      match t.status {
        case Todo => todo := todo + [t];
        case InProgress => inProgress := inProgress + [t];
        case InReview => inReview := inReview + [t];
        case Done => done := done + [t];
      }
      i := i + 1;
    }
    EmptyRest(tasks);
    assert todo + [] == todo && inProgress + [] == inProgress;
    assert inReview + [] == inReview && done + [] == done;
    g := GroupedTasks(SortByOrder(todo), SortByOrder(inProgress), SortByOrder(inReview), SortByOrder(done));
  }

  lemma EmptyRest(tasks: seq<Task>)
    ensures forall s :: OfStatus(tasks[|tasks|..], s) == []
  {
    assert tasks[|tasks|..] == [];
  }

  /** The record returned by `getTaskCountsByStatus`. */
  datatype StatusCounts = StatusCounts(todo: nat, inProgress: nat, inReview: nat, done: nat)
  {
    function Get(s: Status): nat
    {
      match s
      case Todo => todo
      case InProgress => inProgress
      case InReview => inReview
      case Done => done
    }

    function Total(): nat
    {
      todo + inProgress + inReview + done
    }
  }

  /** `getTaskCountsByStatus`. */
  function TaskCountsByStatus(tasks: seq<Task>): StatusCounts
  {
    StatusCounts(CountWhere(HasStatus(Todo), tasks), CountWhere(HasStatus(InProgress), tasks),
                 CountWhere(HasStatus(InReview), tasks), CountWhere(HasStatus(Done), tasks))
  }

  lemma OfStatusCons(t: Task, rest: seq<Task>, s: Status)
    ensures OfStatus([t] + rest, s) == (if t.status == s then [t] else []) + OfStatus(rest, s)
  {
    FilterCons(HasStatus(s), t, rest);
  }

  /** Every task has exactly one of the four statuses, so the four status
      filters together are as long as the list. */
  lemma {:induction false} StatusPartition(tasks: seq<Task>)
    ensures |OfStatus(tasks, Todo)| + |OfStatus(tasks, InProgress)| + |OfStatus(tasks, InReview)|
            + |OfStatus(tasks, Done)| == |tasks|
    decreases |tasks|
  {
    if tasks != [] {
      var t, rest := tasks[0], tasks[1..];
      assert tasks == [t] + rest;
      StatusPartition(rest);
      OfStatusCons(t, rest, Todo);
      OfStatusCons(t, rest, InProgress);
      OfStatusCons(t, rest, InReview);
      OfStatusCons(t, rest, Done);
    }
  }

  /** The four counts of `getTaskCountsByStatus` add up to the number of
      tasks. */
  lemma StatusCountsTotal(tasks: seq<Task>)
    ensures TaskCountsByStatus(tasks).Total() == |tasks|
  {
    StatusPartition(tasks);
  }

  lemma BucketPermutes(tasks: seq<Task>, s: Status)
    ensures multiset(Grouped(tasks).Bucket(s)) == multiset(OfStatus(tasks, s))
    ensures |Grouped(tasks).Bucket(s)| == TaskCountsByStatus(tasks).Get(s)
    ensures forall t :: t in Grouped(tasks).Bucket(s) <==> t in tasks && t.status == s
  {
    var b, f := Grouped(tasks).Bucket(s), OfStatus(tasks, s);
    SortByPermutes(OrderKey, f);
    forall t ensures t in b <==> t in tasks && t.status == s {
      assert t in b <==> t in multiset(b);
      assert t in f <==> t in multiset(f);
    }
  }

  /** `groupByStatus` puts each task into exactly the bucket of its status;
      each bucket is as long as the count `getTaskCountsByStatus` gives for
      its status, and the bucket lengths add up to the number of tasks. */
  lemma GroupedPartition(tasks: seq<Task>)
    ensures forall s, t :: t in Grouped(tasks).Bucket(s) <==> t in tasks && t.status == s
    ensures forall s :: |Grouped(tasks).Bucket(s)| == TaskCountsByStatus(tasks).Get(s)
    ensures |Grouped(tasks).todo| + |Grouped(tasks).inProgress| + |Grouped(tasks).inReview|
            + |Grouped(tasks).done| == |tasks|
  {
    forall s ensures (forall t :: t in Grouped(tasks).Bucket(s) <==> t in tasks && t.status == s)
      && |Grouped(tasks).Bucket(s)| == TaskCountsByStatus(tasks).Get(s)
    {
      BucketPermutes(tasks, s);
    }
    var g := Grouped(tasks);
    assert g.todo == g.Bucket(Todo) && g.inProgress == g.Bucket(InProgress);
    assert g.inReview == g.Bucket(InReview) && g.done == g.Bucket(Done);
    StatusCountsTotal(tasks);
  }

  /** Every bucket is sorted ascending by order, and tasks with equal order
      keep their input relative order. */
  lemma GroupedSortedStable(tasks: seq<Task>, s: Status, k: real)
    ensures SortedBy(OrderKey, Grouped(tasks).Bucket(s))
    ensures Filter(KeyIs(OrderKey, k), Grouped(tasks).Bucket(s)) == Filter(KeyIs(OrderKey, k), OfStatus(tasks, s))
  {
    SortBySorted(OrderKey, OfStatus(tasks, s));
    SortByStable(OrderKey, OfStatus(tasks, s), k);
  }

  // ---------------------------------------------------------------------
  // computeNextOrder

  /** `computeNextOrder(tasks, targetIndex)` for a non-negative index. */
  function ComputeNextOrder(tasks: seq<Task>, targetIndex: nat): real
  {
    if |tasks| == 0 then 1000.0
    else if targetIndex == 0 then tasks[0].order - 1000.0
    else if targetIndex >= |tasks| then tasks[|tasks| - 1].order + 1000.0
    else (tasks[targetIndex - 1].order + tasks[targetIndex].order) / 2.0
  }

  ghost predicate StrictlyAscending(tasks: seq<Task>)
  {
    forall i, j :: 0 <= i < j < |tasks| ==> tasks[i].order < tasks[j].order
  }

  /** On a strictly ascending column the new key sorts exactly at the
      requested position: below the first, above the last, or strictly
      between the two neighbours. */
  lemma ComputeNextOrderPlaces(tasks: seq<Task>, targetIndex: nat)
    requires StrictlyAscending(tasks)
    ensures |tasks| == 0 ==> ComputeNextOrder(tasks, targetIndex) == 1000.0
    ensures forall i :: 0 <= i < |tasks| ==>
      (i < targetIndex <==> tasks[i].order < ComputeNextOrder(tasks, targetIndex))
    ensures forall i :: 0 <= i < |tasks| ==> tasks[i].order != ComputeNextOrder(tasks, targetIndex)
  {
    var r := ComputeNextOrder(tasks, targetIndex);
    var n := |tasks|;
    forall i | 0 <= i < n ensures (i < targetIndex <==> tasks[i].order < r) && tasks[i].order != r {
      if targetIndex == 0 {
        if i > 0 { assert tasks[0].order < tasks[i].order; }
      } else if targetIndex >= n {
        if i < n - 1 { assert tasks[i].order < tasks[n - 1].order; }
      } else {
        var lo, hi := tasks[targetIndex - 1].order, tasks[targetIndex].order;
        assert lo < hi;
        if i < targetIndex - 1 { assert tasks[i].order < lo; }
        if i > targetIndex { assert hi < tasks[i].order; }
      }
    }
  }

  // ---------------------------------------------------------------------
  // reorderTasks / arrayMove

  /** `s` without its element at `i`. */
  function RemoveAt<T>(s: seq<T>, i: nat): seq<T>
    requires i < |s|
  {
    s[..i] + s[i + 1..]
  }

  /** Remove the element at `from`, then insert it at `to` (clamped to the
      end, as `splice` does): the `splice` pair of reorderTasks and
      dnd-kit's `arrayMove`. */
  function ArrayMove<T>(s: seq<T>, from: nat, to: nat): seq<T>
    requires from < |s|
  {
    var rest := RemoveAt(s, from);
    var at := if to <= |rest| then to else |rest|;
    rest[..at] + [s[from]] + rest[at..]
  }

  /** `arrayMove` is a permutation that puts the moved element at the target
      index and leaves the others in their relative order: removing it at
      its new place gives what removing it at its old place gave. */
  lemma ArrayMoveSpec<T>(s: seq<T>, from: nat, to: nat)
    requires from < |s| && to < |s|
    ensures |ArrayMove(s, from, to)| == |s|
    ensures multiset(ArrayMove(s, from, to)) == multiset(s)
    ensures ArrayMove(s, from, to)[to] == s[from]
    ensures RemoveAt(ArrayMove(s, from, to), to) == RemoveAt(s, from)
  {
    var rest := RemoveAt(s, from);
    var r := ArrayMove(s, from, to);
    assert s == s[..from] + [s[from]] + s[from + 1..];
    assert multiset(s) == multiset(rest) + multiset{s[from]};
    assert rest == rest[..to] + rest[to..];
    assert r[..to] == rest[..to];
    assert r[to + 1..] == rest[to..];
  }

  /** Renumbering gives position `i` the order `(i + 1) * 1000`. */
  function Renumbered(tasks: seq<Task>): seq<Task>
  {
    seq(|tasks|, i requires 0 <= i < |tasks| => tasks[i].(order := ((i + 1) * 1000) as real))
  }

  /** `reorderTasks(tasks, sourceIndex, destinationIndex)`: splice the task
      out of a copy, splice it back in at the destination, then renumber. */
  method ReorderTasks(tasks: seq<Task>, sourceIndex: nat, destinationIndex: nat) returns (r: seq<Task>)
    requires sourceIndex < |tasks|
    ensures |r| == |tasks|
    ensures r == Renumbered(ArrayMove(tasks, sourceIndex, destinationIndex))
    ensures destinationIndex < |tasks| ==>
      r[destinationIndex] == tasks[sourceIndex].(order := ((destinationIndex + 1) * 1000) as real)
    ensures StrictlyAscending(r)
    ensures forall i :: 0 <= i < |r| ==> r[i].order == ((i + 1) * 1000) as real
  {
    var result := tasks;
    var removed := result[sourceIndex];
    result := result[..sourceIndex] + result[sourceIndex + 1..];
    var at := if destinationIndex <= |result| then destinationIndex else |result|;
    result := result[..at] + [removed] + result[at..];
    r := seq(|result|, i requires 0 <= i < |result| => result[i].(order := ((i + 1) * 1000) as real));
    if destinationIndex < |tasks| {
      ArrayMoveSpec(tasks, sourceIndex, destinationIndex);
    }
  }

  /** A renumbered column is strictly ascending and otherwise unchanged. */
  lemma RenumberedSpec(tasks: seq<Task>)
    ensures |Renumbered(tasks)| == |tasks|
    ensures StrictlyAscending(Renumbered(tasks))
    ensures forall i :: 0 <= i < |tasks| ==>
      Renumbered(tasks)[i].id == tasks[i].id && Renumbered(tasks)[i].status == tasks[i].status
  {
  }
}
