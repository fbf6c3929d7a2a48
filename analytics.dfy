/** The counting charts of the dashboard (src/utils/analytics.ts): the
    status-by-priority matrix, the tag distribution, the open workload per
    user and the overall progress. A JavaScript `Record` used as a counter
    is a `map`; the order of `Object.entries` is the order in which keys
    were first set. */
module Analytics {
  import opened Types
  import opened Seqs
  import opened TaskUtils

  // ---------------------------------------------------------------------
  // buildStatusPriorityMatrix

  datatype StatusPriorityData = StatusPriorityData(status: string, low: nat, medium: nat, high: nat)

  function HasPriority(p: Priority): Task -> bool
  {
    (t: Task) => t.priority == p
  }

  /** One bar of the chart: the tasks of status `s`, counted by priority. */
  function StatusPriorityRow(tasks: seq<Task>, s: Status): StatusPriorityData
  {
    var statusTasks := OfStatus(tasks, s);
    StatusPriorityData(StatusLabel(s), CountWhere(HasPriority(Low), statusTasks),
                       CountWhere(HasPriority(Medium), statusTasks), CountWhere(HasPriority(High), statusTasks))
  }

  /** `statuses.map(...)` over the four statuses in column order. */
  function BuildStatusPriorityMatrix(tasks: seq<Task>): seq<StatusPriorityData>
  {
    seq(|AllStatuses|, i requires 0 <= i < |AllStatuses| => StatusPriorityRow(tasks, AllStatuses[i]))
  }

  function RowTotal(row: StatusPriorityData): nat
  {
    row.low + row.medium + row.high
  }

  /** Every task has exactly one of the three priorities. */
  lemma {:induction false} PriorityPartition(tasks: seq<Task>)
    ensures CountWhere(HasPriority(Low), tasks) + CountWhere(HasPriority(Medium), tasks)
      + CountWhere(HasPriority(High), tasks) == |tasks|
  {
    if tasks != [] {
      PriorityPartition(tasks[1..]);
      assert tasks == [tasks[0]] + tasks[1..];
      FilterCons(HasPriority(Low), tasks[0], tasks[1..]);
      FilterCons(HasPriority(Medium), tasks[0], tasks[1..]);
      FilterCons(HasPriority(High), tasks[0], tasks[1..]);
    }
  }

  /** A row splits its column's count by priority. */
  lemma StatusPriorityRowSpec(tasks: seq<Task>, s: Status)
    ensures StatusPriorityRow(tasks, s).status == StatusLabel(s)
    ensures RowTotal(StatusPriorityRow(tasks, s)) == TaskCountsByStatus(tasks).Get(s)
  {
    PriorityPartition(OfStatus(tasks, s));
  }

  /** Four rows in column order, "To Do" first and "Done" last, each
      splitting its column's count by priority. */
  lemma StatusPriorityMatrixSpec(tasks: seq<Task>)
    ensures |BuildStatusPriorityMatrix(tasks)| == 4
    ensures forall i :: 0 <= i < 4 ==>
      BuildStatusPriorityMatrix(tasks)[i].status == StatusLabel(AllStatuses[i])
      && RowTotal(BuildStatusPriorityMatrix(tasks)[i]) == TaskCountsByStatus(tasks).Get(AllStatuses[i])
    ensures BuildStatusPriorityMatrix(tasks)[0].status == "To Do"
      && BuildStatusPriorityMatrix(tasks)[3].status == "Done"
  {
    forall i | 0 <= i < 4
      ensures RowTotal(BuildStatusPriorityMatrix(tasks)[i]) == TaskCountsByStatus(tasks).Get(AllStatuses[i])
    {
      StatusPriorityRowSpec(tasks, AllStatuses[i]);
    }
  }

  /** Together the rows count every task once. */
  lemma StatusPriorityMatrixTotal(tasks: seq<Task>)
    ensures var m := BuildStatusPriorityMatrix(tasks);
      RowTotal(m[0]) + RowTotal(m[1]) + RowTotal(m[2]) + RowTotal(m[3]) == |tasks|
  {
    var m := BuildStatusPriorityMatrix(tasks);
    StatusPriorityMatrixSpec(tasks);
    StatusCountsTotal(tasks);
    var c := TaskCountsByStatus(tasks);
    assert RowTotal(m[0]) == c.todo && RowTotal(m[1]) == c.inProgress;
    assert RowTotal(m[2]) == c.inReview && RowTotal(m[3]) == c.done;
  }

  // ---------------------------------------------------------------------
  // buildTagDistribution

  datatype TagDistributionData = TagDistributionData(name: string, value: nat, fill: string)

  /** The color of tags without a TAG_COLORS entry. */
  const FallbackColor: string := "#6b7280"

  /** `TAG_COLORS[tag] || '#6b7280'`. */
  function Fill(tag: string): string
  {
    match TagColor(tag)
    case Some(c) => c
    case None => FallbackColor
  }

  /** Every tag of every task, in the order the loops visit them. */
  function AllTagsOf(tasks: seq<Task>): seq<string>
  {
    if tasks == [] then [] else AllTagsOf(tasks[..|tasks| - 1]) + tasks[|tasks| - 1].tags
  }

  /** The number of occurrences of `x` in `s`. */
  function Occurrences(s: seq<string>, x: string): nat
  {
    if s == [] then 0 else Occurrences(s[..|s| - 1], x) + (if s[|s| - 1] == x then 1 else 0)
  }

  /** The distinct elements of `s` in the order of their first occurrence:
      the keys of the counter, in `Object.entries` order. */
  function Distinct(s: seq<string>): seq<string>
  {
    if s == [] then []
    else
      var d := Distinct(s[..|s| - 1]);
      if s[|s| - 1] in s[..|s| - 1] then d else d + [s[|s| - 1]]
  }

  /** The chart entry of tag `k`: its count over `all` and its color. */
  function Slice(all: seq<string>, k: string): TagDistributionData
  {
    TagDistributionData(k, Occurrences(all, k), Fill(k))
  }

  /** The chart entries for `keys`, before sorting. */
  function Slices(keys: seq<string>, all: seq<string>): seq<TagDistributionData>
  {
    seq(|keys|, i requires 0 <= i < |keys| => Slice(all, keys[i]))
  }

  /** The sort key of `(a, b) => b.value - a.value`: descending by value. */
  function ByValueDesc(d: TagDistributionData): real
  {
    -(d.value as real)
  }

  function SliceValue(d: TagDistributionData): nat
  {
    d.value
  }

  /** What `buildTagDistribution` returns. */
  function TagDistribution(tasks: seq<Task>): seq<TagDistributionData>
  {
    var all := AllTagsOf(tasks);
    SortBy(ByValueDesc, Slices(Distinct(all), all))
  }

  lemma OccurrencesSnoc(s: seq<string>, x: string, k: string)
    ensures Occurrences(s + [x], k) == Occurrences(s, k) + (if x == k then 1 else 0)
  {
    assert (s + [x])[..|s|] == s;
  }

  lemma DistinctSnoc(s: seq<string>, x: string)
    ensures Distinct(s + [x]) == if x in s then Distinct(s) else Distinct(s) + [x]
  {
    assert (s + [x])[..|s|] == s;
  }

  /** The distinct elements are exactly the elements, each once; an element
      that does not occur has no occurrences. */
  lemma {:induction false} DistinctSpec(s: seq<string>)
    ensures forall x :: x in Distinct(s) <==> x in s
    ensures NoDuplicates(Distinct(s))
    ensures forall x :: x !in s ==> Occurrences(s, x) == 0
    decreases |s|
  {
    if s != [] {
      var init, x := s[..|s| - 1], s[|s| - 1];
      assert s == init + [x];
      DistinctSpec(init);
      var d := Distinct(init);
      if x !in init {
        forall i, j | 0 <= i < j < |d + [x]| ensures (d + [x])[i] != (d + [x])[j] {
          if j == |d| {
            assert (d + [x])[i] == d[i];
            assert d[i] in d;
          }
        }
      }
    }
  }

  lemma SlicesSnoc(keys: seq<string>, all: seq<string>, k: string)
    ensures Slices(keys + [k], all) == Slices(keys, all) + [Slice(all, k)]
  {
  }

  /** One more occurrence of `x` adds one to the slice values of a key list
      holding `x` once, and nothing to one without `x`. */
  lemma {:induction false} SlicesSumSnoc(keys: seq<string>, s: seq<string>, x: string)
    requires NoDuplicates(keys)
    ensures Sum(SliceValue, Slices(keys, s + [x]))
      == Sum(SliceValue, Slices(keys, s)) + (if x in keys then 1 else 0)
    decreases |keys|
  {
    if keys != [] {
      var init, k := keys[..|keys| - 1], keys[|keys| - 1];
      assert keys == init + [k];
      assert NoDuplicates(init) by {
        forall i, j | 0 <= i < j < |init| ensures init[i] != init[j] {
          assert init[i] == keys[i] && init[j] == keys[j];
        }
      }
      assert k !in init by {
        forall i | 0 <= i < |init| ensures init[i] != k {
          assert init[i] == keys[i];
        }
      }
      SlicesSumSnoc(init, s, x);
      OccurrencesSnoc(s, x, k);
      SlicesSnoc(init, s + [x], k);
      SlicesSnoc(init, s, k);
      SumAppend(SliceValue, Slices(init, s + [x]), [Slice(s + [x], k)]);
      SumAppend(SliceValue, Slices(init, s), [Slice(s, k)]);
    }
  }

  /** The counts of the distinct tags add up to the number of tags. */
  lemma {:induction false} DistinctSlicesSum(s: seq<string>)
    ensures Sum(SliceValue, Slices(Distinct(s), s)) == |s|
    decreases |s|
  {
    if s != [] {
      var init, x := s[..|s| - 1], s[|s| - 1];
      assert s == init + [x];
      DistinctSlicesSum(init);
      DistinctSpec(init);
      DistinctSnoc(init, x);
      var d := Distinct(init);
      SlicesSumSnoc(d, init, x);
      if x !in init {
        OccurrencesSnoc(init, x, x);
        SumAppend(SliceValue, Slices(d, s), [Slice(s, x)]);
        SlicesSnoc(d, s, x);
      }
    }
  }

  /** The record `buildTagDistribution` has built after counting the tags
      `s` one by one. */
  function TagCounts(s: seq<string>): map<string, nat>
  {
    if s == [] then map[]
    else
      var m := TagCounts(s[..|s| - 1]);
      var x := s[|s| - 1];
      m[x := (if x in m then m[x] else 0) + 1]
  }

  lemma TagCountsSnoc(s: seq<string>, x: string)
    ensures TagCounts(s + [x]) == TagCounts(s)[x := (if x in TagCounts(s) then TagCounts(s)[x] else 0) + 1]
  {
    assert (s + [x])[..|s|] == s;
  }

  lemma TagCountsKeys(s: seq<string>, x: string)
    ensures x in TagCounts(s) <==> x in s
  {
    TagCountsSpec(s);
  }

  /** The record has a key for each tag that occurs, holding its number of
      occurrences. */
  lemma {:induction false} TagCountsSpec(s: seq<string>)
    ensures forall k :: k in TagCounts(s) <==> k in s
    ensures forall k :: k in TagCounts(s) ==> TagCounts(s)[k] == Occurrences(s, k)
    decreases |s|
  {
    if s != [] {
      var init, x := s[..|s| - 1], s[|s| - 1];
      assert s == init + [x];
      TagCountsSpec(init);
      forall k ensures Occurrences(s, k) == Occurrences(init, k) + (if x == k then 1 else 0) {
        OccurrencesSnoc(init, x, k);
      }
      DistinctSpec(init);
    }
  }

  lemma AllTagsOfSnoc(tasks: seq<Task>, i: nat)
    requires i < |tasks|
    ensures AllTagsOf(tasks[..i + 1]) == AllTagsOf(tasks[..i]) + tasks[i].tags
  {
    assert tasks[..i + 1][..i] == tasks[..i];
  }

  /** The entries read off the record, in key order, are the slices of the
      distinct tags. */
  lemma EntriesAreSlices(seen: seq<string>)
    ensures forall k :: k in Distinct(seen) ==> k in TagCounts(seen)
    ensures var keys, counts := Distinct(seen), TagCounts(seen);
      seq(|keys|, i requires 0 <= i < |keys| && keys[i] in counts =>
        TagDistributionData(keys[i], counts[keys[i]], Fill(keys[i]))) == Slices(keys, seen)
  {
    DistinctSpec(seen);
    TagCountsSpec(seen);
  }

  /** The inner `task.tags.forEach` of `buildTagDistribution`: count the
      tags of one task into the record, whose keys in insertion order are
      `keys`. */
  method CountTags(tags: seq<string>, ghost seen: seq<string>, keys: seq<string>, tagCounts: map<string, nat>)
    returns (keys': seq<string>, tagCounts': map<string, nat>)
    requires keys == Distinct(seen) && tagCounts == TagCounts(seen)
    ensures keys' == Distinct(seen + tags) && tagCounts' == TagCounts(seen + tags)
  {
    keys', tagCounts' := keys, tagCounts;
    var j := 0;
    assert seen + tags[..0] == seen;
    while j < |tags|
      invariant 0 <= j <= |tags|
      invariant keys' == Distinct(seen + tags[..j]) && tagCounts' == TagCounts(seen + tags[..j])
    {
      var tag := tags[j];
      ghost var counted := seen + tags[..j];
      DistinctSnoc(counted, tag);
      TagCountsSnoc(counted, tag);
      TagCountsKeys(counted, tag);
      if tag !in tagCounts' {
        keys' := keys' + [tag];
      }
      tagCounts' := tagCounts'[tag := (if tag in tagCounts' then tagCounts'[tag] else 0) + 1];
      assert seen + tags[..j + 1] == counted + [tag];
      j := j + 1;
    }
    assert tags[..j] == tags;
  }

  /** `buildTagDistribution`: count every tag occurrence in a record, then
      list the record's entries and sort them by count, largest first. */
  method BuildTagDistribution(tasks: seq<Task>) returns (r: seq<TagDistributionData>)
    ensures r == TagDistribution(tasks)
  {
    var tagCounts: map<string, nat> := map[];
    var keys: seq<string> := [];
    var i := 0;
    while i < |tasks|
      invariant 0 <= i <= |tasks|
      invariant keys == Distinct(AllTagsOf(tasks[..i])) && tagCounts == TagCounts(AllTagsOf(tasks[..i]))
    {
      AllTagsOfSnoc(tasks, i);
      keys, tagCounts := CountTags(tasks[i].tags, AllTagsOf(tasks[..i]), keys, tagCounts);
      i := i + 1;
    }
    assert tasks[..i] == tasks;
    EntriesAreSlices(AllTagsOf(tasks));
    var entries := seq(|keys|, k requires 0 <= k < |keys| && keys[k] in tagCounts =>
      TagDistributionData(keys[k], tagCounts[keys[k]], Fill(keys[k])));
    r := SortBy(ByValueDesc, entries);
  }

  /** The slices of the distinct tags, before sorting: one per distinct tag,
      each with its count and color, all different. */
  lemma DistinctSlicesSpec(all: seq<string>)
    ensures var slices := Slices(Distinct(all), all);
      (forall d :: d in slices ==> d.name in all && d.value == Occurrences(all, d.name) && d.fill == Fill(d.name))
      && (forall x :: x in all ==> TagDistributionData(x, Occurrences(all, x), Fill(x)) in slices)
      && NoDuplicates(slices)
  {
    var d := Distinct(all);
    var slices := Slices(d, all);
    DistinctSpec(all);
    forall e | e in slices ensures e.name in all && e.value == Occurrences(all, e.name) && e.fill == Fill(e.name) {
      var k :| 0 <= k < |slices| && slices[k] == e;
      assert d[k] in d;
    }
    forall x | x in all ensures TagDistributionData(x, Occurrences(all, x), Fill(x)) in slices {
      var k :| 0 <= k < |d| && d[k] == x;
      assert slices[k] == TagDistributionData(x, Occurrences(all, x), Fill(x));
    }
    forall i, j | 0 <= i < j < |slices| ensures slices[i] != slices[j] {
      assert slices[i].name == d[i] && slices[j].name == d[j];
    }
  }

  /** Each entry counts the occurrences of its tag over all tasks and has
      the tag's color, and every tag that occurs has an entry. */
  lemma TagDistributionEntries(tasks: seq<Task>)
    ensures var r := TagDistribution(tasks); var all := AllTagsOf(tasks);
      (forall e :: e in r ==> e.name in all && e.value == Occurrences(all, e.name) && e.fill == Fill(e.name))
      && (forall x :: x in all ==> TagDistributionData(x, Occurrences(all, x), Fill(x)) in r)
  {
    var all := AllTagsOf(tasks);
    var slices := Slices(Distinct(all), all);
    DistinctSlicesSpec(all);
    SortByPermutes(ByValueDesc, slices);
    var r := TagDistribution(tasks);
    forall e ensures e in r <==> e in slices {
      assert e in r <==> e in multiset(r);
      assert e in slices <==> e in multiset(slices);
    }
  }

  /** No tag has two entries, and the entries are ordered by count, largest
      first. */
  lemma TagDistributionOrdered(tasks: seq<Task>)
    ensures var r := TagDistribution(tasks);
      forall i, j :: 0 <= i < j < |r| ==> r[i].name != r[j].name && r[i].value >= r[j].value
  {
    var all := AllTagsOf(tasks);
    var slices := Slices(Distinct(all), all);
    var r := TagDistribution(tasks);
    DistinctSlicesSpec(all);
    SortBySorted(ByValueDesc, slices);
    SortByNoDuplicates(ByValueDesc, slices);
    TagDistributionEntries(tasks);
    forall i, j | 0 <= i < j < |r| ensures r[i].name != r[j].name && r[i].value >= r[j].value {
      assert ByValueDesc(r[i]) <= ByValueDesc(r[j]);
      assert r[i] in r && r[j] in r;
    }
  }

  /** The counts add up to the number of tag occurrences. */
  lemma TagDistributionTotal(tasks: seq<Task>)
    ensures Sum(SliceValue, TagDistribution(tasks)) == |AllTagsOf(tasks)|
  {
    var all := AllTagsOf(tasks);
    SortBySum(ByValueDesc, SliceValue, Slices(Distinct(all), all));
    DistinctSlicesSum(all);
  }

  // ---------------------------------------------------------------------
  // workloadByUser

  datatype WorkloadData = WorkloadData(userId: string, userName: string, taskCount: nat)

  /** A task counts for user `id` when it is not done and its (truthy)
      assignee is `id`. */
  function OpenFor(id: string): Task -> bool
  {
    (t: Task) => IsTruthy(t.assigneeId) && t.status != Done && t.assigneeId.value == id
  }

  function OpenCount(tasks: seq<Task>, id: string): nat
  {
    CountWhere(OpenFor(id), tasks)
  }

  /** The entries before sorting: one per user, in the users' order. */
  function WorkloadEntries(tasks: seq<Task>, users: seq<User>): seq<WorkloadData>
  {
    seq(|users|, i requires 0 <= i < |users| => WorkloadData(users[i].id, users[i].name, OpenCount(tasks, users[i].id)))
  }

  /** The sort key of `(a, b) => b.taskCount - a.taskCount`. */
  function ByCountDesc(w: WorkloadData): real
  {
    -(w.taskCount as real)
  }

  /** What `workloadByUser` returns. */
  function Workload(tasks: seq<Task>, users: seq<User>): seq<WorkloadData>
  {
    SortBy(ByCountDesc, WorkloadEntries(tasks, users))
  }

  /** The counter invariant of `workloadByUser` after the tasks `done`:
      each key holds its user's open count, and users without a key have no
      open task. */
  ghost predicate OpenCounts(done: seq<Task>, workload: map<string, nat>)
  {
    (forall k :: k in workload ==> workload[k] == OpenCount(done, k))
    && (forall k :: k !in workload ==> OpenCount(done, k) == 0)
  }

  /** Counting one more task keeps the counter invariant. */
  lemma CountStep(done: seq<Task>, t: Task, workload: map<string, nat>)
    requires OpenCounts(done, workload)
    ensures OpenCounts(done + [t],
      if IsTruthy(t.assigneeId) && t.status != Done then
        workload[t.assigneeId.value := (if t.assigneeId.value in workload then workload[t.assigneeId.value] else 0) + 1]
      else workload)
  {
    forall k ensures OpenCount(done + [t], k) == OpenCount(done, k) + (if OpenFor(k)(t) then 1 else 0) {
      FilterAppend(OpenFor(k), done, [t]);
      FilterCons(OpenFor(k), t, []);
    }
  }

  /** `workloadByUser`: count the open tasks per assignee in a record, then
      give every user its count (0 when absent) and sort, largest first. */
  method WorkloadByUser(tasks: seq<Task>, users: seq<User>) returns (r: seq<WorkloadData>)
    ensures r == Workload(tasks, users)
  {
    var workload: map<string, nat> := map[];
    var i := 0;
    while i < |tasks|
      invariant 0 <= i <= |tasks|
      invariant OpenCounts(tasks[..i], workload)
    {
      var task := tasks[i];
      CountStep(tasks[..i], task, workload);
      if IsTruthy(task.assigneeId) && task.status != Done {
        workload := workload[task.assigneeId.value := (if task.assigneeId.value in workload then workload[task.assigneeId.value] else 0) + 1];
      }
      assert tasks[..i + 1] == tasks[..i] + [task];
      i := i + 1;
    }
    assert tasks[..i] == tasks;
    var entries := seq(|users|, k requires 0 <= k < |users| =>
      WorkloadData(users[k].id, users[k].name, if users[k].id in workload then workload[users[k].id] else 0));
    assert entries == WorkloadEntries(tasks, users);
    r := SortBy(ByCountDesc, entries);
  }

  /** One entry per user, holding that user's number of open tasks, ordered
      by that number, largest first. */
  lemma WorkloadSpec(tasks: seq<Task>, users: seq<User>)
    ensures var r := Workload(tasks, users);
      |r| == |users|
      && multiset(r) == multiset(WorkloadEntries(tasks, users))
      && (forall w :: w in r <==> exists u :: u in users && w == WorkloadData(u.id, u.name, OpenCount(tasks, u.id)))
      && (forall i, j :: 0 <= i < j < |r| ==> r[i].taskCount >= r[j].taskCount)
  {
    var e := WorkloadEntries(tasks, users);
    var r := Workload(tasks, users);
    SortByPermutes(ByCountDesc, e);
    SortBySorted(ByCountDesc, e);
    forall w ensures w in r <==> exists u :: u in users && w == WorkloadData(u.id, u.name, OpenCount(tasks, u.id)) {
      assert w in r <==> w in multiset(r);
      assert w in e <==> w in multiset(e);
      if w in e {
        var k :| 0 <= k < |e| && e[k] == w;
        assert users[k] in users;
      }
      if exists u :: u in users && w == WorkloadData(u.id, u.name, OpenCount(tasks, u.id)) {
        var u :| u in users && w == WorkloadData(u.id, u.name, OpenCount(tasks, u.id));
        var k :| 0 <= k < |users| && users[k] == u;
        assert e[k] == w;
      }
    }
    forall i, j | 0 <= i < j < |r| ensures r[i].taskCount >= r[j].taskCount {
      assert ByCountDesc(r[i]) <= ByCountDesc(r[j]);
    }
  }

  /** A task that is done, has no (truthy) assignee, or is assigned to
      someone who is not a user adds to no entry. */
  lemma WorkloadIgnores(tasks: seq<Task>, users: seq<User>, t: Task)
    requires t.status == Done || !IsTruthy(t.assigneeId) || forall u :: u in users ==> u.id != t.assigneeId.value
    ensures Workload(tasks + [t], users) == Workload(tasks, users)
  {
    forall k | 0 <= k < |users| ensures OpenCount(tasks + [t], users[k].id) == OpenCount(tasks, users[k].id) {
      assert users[k] in users;
      FilterAppend(OpenFor(users[k].id), tasks, [t]);
      FilterCons(OpenFor(users[k].id), t, []);
    }
    assert WorkloadEntries(tasks + [t], users) == WorkloadEntries(tasks, users);
  }

  // ---------------------------------------------------------------------
  // calculateProgress

  datatype Progress = Progress(completed: nat, total: nat, percentage: nat)

  /** `Math.round(n / d)` for non-negative `n` and positive `d`: the integer
      nearest to `n / d`, halves rounded up. */
  function RoundQuotient(n: nat, d: nat): nat
    requires d > 0
  {
    (2 * n + d) / (2 * d)
  }

  function CalculateProgress(tasks: seq<Task>): Progress
  {
    var total := |tasks|;
    var completed := CountWhere(HasStatus(Done), tasks);
    Progress(completed, total, if total > 0 then RoundQuotient(completed * 100, total) else 0)
  }

  /** The rounding is round-half-up: `r - 1/2 <= n / d < r + 1/2`, stated
      with both sides multiplied by `2 * d`. */
  lemma RoundQuotientSpec(n: nat, d: nat)
    requires d > 0
    ensures d * (2 * RoundQuotient(n, d) - 1) <= 2 * n < d * (2 * RoundQuotient(n, d) + 1)
  {
    var r := RoundQuotient(n, d);
    var m := 2 * n + d;
    assert m == r * (2 * d) + m % (2 * d) && 0 <= m % (2 * d) < 2 * d;
    assert d * (2 * r - 1) == r * (2 * d) - d;
    assert d * (2 * r + 1) == r * (2 * d) + d;
  }

  lemma CancelFactor(d: int, a: int, b: int)
    requires d > 0 && d * a <= d * b
    ensures a <= b
  {
    assert d * (b - a) >= 0;
  }

  /** A share of at most the whole rounds to at most 100 percent. */
  lemma PercentageAtMost100(completed: nat, total: nat)
    requires 0 < total && completed <= total
    ensures RoundQuotient(completed * 100, total) <= 100
  {
    var r: int := RoundQuotient(completed * 100, total);
    RoundQuotientSpec(completed * 100, total);
    assert total * (2 * r - 1) <= total * 200;
    CancelFactor(total, 2 * r - 1, 200);
  }

  /** The number completed is the Done count and at most the total; the
      percentage is 0 without tasks, and otherwise the completed share of
      100 rounded half up, at most 100. */
  lemma CalculateProgressSpec(tasks: seq<Task>)
    ensures var p := CalculateProgress(tasks);
      p.total == |tasks| && p.completed == TaskCountsByStatus(tasks).done && p.completed <= p.total
      && (p.total == 0 ==> p.percentage == 0)
      && p.percentage <= 100
      && (p.total > 0 ==>
            p.total * (2 * p.percentage - 1) <= 200 * p.completed < p.total * (2 * p.percentage + 1))
  {
    var completed := CountWhere(HasStatus(Done), tasks);
    StatusCountsTotal(tasks);
    assert completed <= |tasks|;
    if |tasks| > 0 {
      RoundQuotientSpec(completed * 100, |tasks|);
      PercentageAtMost100(completed, |tasks|);
    }
  }
}
