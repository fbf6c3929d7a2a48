/** The task and activity store (src/store/useTasksStore.ts): the task list
    and the activity log, replaced by each action. Ids and clock readings
    are parameters of the actions; the database writes the store starts
    after each change are not modelled. */
module TasksStore {
  import opened Types
  import opened Seqs
  import opened Text
  import opened TaskUtils

  /** The number of activities the log keeps. */
  const MaxActivities: nat := 100

  /** What `addTask` is given: a task without id, time stamps and order. */
  datatype TaskDraft = TaskDraft(
    title: string,
    description: string,
    assigneeId: Option<string>,
    status: Status,
    priority: Priority,
    tags: seq<string>,
    dueDate: Option<string>)

  /** A `Partial<Task>`: `None` for an absent key. The optional fields of a
      task take an `Option<Option<..>>`, where `Some(None)` is a key that is
      present with the value `undefined`, which clears the field. */
  datatype TaskPatch = TaskPatch(
    id: Option<string>,
    title: Option<string>,
    description: Option<string>,
    assigneeId: Option<Option<string>>,
    status: Option<Status>,
    priority: Option<Priority>,
    tags: Option<seq<string>>,
    dueDate: Option<Option<string>>,
    createdAt: Option<string>,
    updatedAt: Option<string>,
    order: Option<real>)

  const EmptyPatch: TaskPatch := TaskPatch(None, None, None, None, None, None, None, None, None, None, None)

  function Pick<T>(o: Option<T>, otherwise: T): T
  {
    if o.Some? then o.value else otherwise
  }

  /** The task `addTask` builds: the draft's fields, the fresh id, `now` as
      both time stamps and the clock in milliseconds as its order. */
  function NewTask(d: TaskDraft, id: string, now: string, nowMs: real): Task
  {
    Task(id, d.title, d.description, d.assigneeId, d.status, d.priority, d.tags, d.dueDate, now, now, nowMs)
  }

  /** The draft part of a task (`Omit<Task, 'id' | 'createdAt' | 'updatedAt' | 'order'>`). */
  function DraftOf(t: Task): TaskDraft
  {
    TaskDraft(t.title, t.description, t.assigneeId, t.status, t.priority, t.tags, t.dueDate)
  }

  /** `{ ...task, ...updates, updatedAt: now }`. */
  function Merge(t: Task, p: TaskPatch, now: string): Task
  {
    Task(Pick(p.id, t.id), Pick(p.title, t.title), Pick(p.description, t.description),
         Pick(p.assigneeId, t.assigneeId), Pick(p.status, t.status), Pick(p.priority, t.priority),
         Pick(p.tags, t.tags), Pick(p.dueDate, t.dueDate), Pick(p.createdAt, t.createdAt),
         now, Pick(p.order, t.order))
  }

  /** `{ ...p, ...q }`: the keys of the later patch win. */
  function Combine(p: TaskPatch, q: TaskPatch): TaskPatch
  {
    TaskPatch(if q.id.Some? then q.id else p.id,
              if q.title.Some? then q.title else p.title,
              if q.description.Some? then q.description else p.description,
              if q.assigneeId.Some? then q.assigneeId else p.assigneeId,
              if q.status.Some? then q.status else p.status,
              if q.priority.Some? then q.priority else p.priority,
              if q.tags.Some? then q.tags else p.tags,
              if q.dueDate.Some? then q.dueDate else p.dueDate,
              if q.createdAt.Some? then q.createdAt else p.createdAt,
              if q.updatedAt.Some? then q.updatedAt else p.updatedAt,
              if q.order.Some? then q.order else p.order)
  }

  /** The `tasks.map` of `updateTask`. */
  function UpdatedTasks(tasks: seq<Task>, id: string, p: TaskPatch, now: string): seq<Task>
  {
    seq(|tasks|, i requires 0 <= i < |tasks| => if tasks[i].id == id then Merge(tasks[i], p, now) else tasks[i])
  }

  /** The tasks whose id is not `id`. */
  function Without(id: string): Task -> bool
  {
    (t: Task) => t.id != id
  }

  function HasId(id: string): Task -> bool
  {
    (t: Task) => t.id == id
  }

  /** The `tasks.filter` of `deleteTask`. */
  function RemovedTasks(tasks: seq<Task>, id: string): seq<Task>
  {
    Filter(Without(id), tasks)
  }

  /** The `tasks.map` of `moveTask`. */
  function MovedTasks(tasks: seq<Task>, id: string, status: Status, order: real, now: string): seq<Task>
  {
    seq(|tasks|, i requires 0 <= i < |tasks| =>
      if tasks[i].id == id then tasks[i].(status := status, order := order, updatedAt := now) else tasks[i])
  }

  /** The log after `recordActivity(a)`: `[a, ...log].slice(0, 100)`. */
  function Logged(log: seq<Activity>, a: Activity): seq<Activity>
  {
    var all := [a] + log;
    all[..if |all| < MaxActivities then |all| else MaxActivities]
  }

  /** The log after recording the activity, if there is one. */
  function LoggedIfAny(log: seq<Activity>, a: Option<Activity>): seq<Activity>
  {
    if a.Some? then Logged(log, a.value) else log
  }

  /** The activity `addTask` records. */
  function CreateActivity(d: TaskDraft, taskId: string, activityId: string, timestamp: string): Activity
  {
    Activity(activityId, Create, taskId, d.assigneeId, timestamp, "created task \"" + d.title + "\"")
  }

  /** The activity `updateTask` records, looked up in the task list AFTER
      the update. */
  function UpdateActivity(updated: seq<Task>, id: string, activityId: string, timestamp: string): Option<Activity>
  {
    match FindTask(updated, id)
    case None => None
    case Some(t) => Some(Activity(activityId, Update, id, t.assigneeId, timestamp, "updated task \"" + t.title + "\""))
  }

  /** The activity `deleteTask` records, looked up BEFORE the deletion. */
  function DeleteActivity(tasks: seq<Task>, id: string, activityId: string, timestamp: string): Option<Activity>
  {
    match FindTask(tasks, id)
    case None => None
    case Some(t) => Some(Activity(activityId, Delete, id, t.assigneeId, timestamp, "deleted task \"" + t.title + "\""))
  }

  /** `moved task to ${newStatus.replace('_', ' ')}`. */
  function MoveMessage(s: Status): string
  {
    "moved task to " + ReplaceFirst(StatusId(s), '_', ' ')
  }

  /** The activity `moveTask` records: only for an existing task whose
      status changes. */
  function MoveActivity(tasks: seq<Task>, id: string, status: Status, activityId: string, timestamp: string): Option<Activity>
  {
    match FindTask(tasks, id)
    case None => None
    case Some(t) =>
      if t.status != status then Some(Activity(activityId, StatusChange, id, t.assigneeId, timestamp, MoveMessage(status)))
      else None
  }

  class TaskStore {
    var tasks: seq<Task>
    var activities: seq<Activity>

    constructor()
      ensures tasks == [] && activities == []
    {
      tasks := [];
      activities := [];
    }

    /** `getTaskById`: the first task with the id, if any. */
    function GetTaskById(id: string): (r: Option<Task>)
      reads this
      ensures r.None? <==> forall t :: t in tasks ==> t.id != id
      ensures r.Some? ==> r.value in tasks && r.value.id == id
    {
      FindTaskSpec(tasks, id);
      FindTask(tasks, id)
    }

    method SetTasks(newTasks: seq<Task>)
      modifies this
      ensures tasks == newTasks && activities == old(activities)
    {
      tasks := newTasks;
    }

    method SetActivities(newActivities: seq<Activity>)
      modifies this
      ensures activities == newActivities && tasks == old(tasks)
    {
      activities := newActivities;
    }

    /** `recordActivity`: the new entry goes in front and the log is cut to
        its first 100 entries. */
    method RecordActivity(kind: ActivityType, taskId: string, userId: Option<string>, message: string,
                          activityId: string, timestamp: string)
      modifies this
      ensures activities == Logged(old(activities), Activity(activityId, kind, taskId, userId, timestamp, message))
      ensures tasks == old(tasks)
    {
      var newActivity := Activity(activityId, kind, taskId, userId, timestamp, message);
      var newActivities := [newActivity] + activities;
      activities := newActivities[..if |newActivities| < 100 then |newActivities| else 100];
    }

    method AddTask(d: TaskDraft, id: string, now: string, nowMs: real, activityId: string, activityTime: string)
      modifies this
      ensures tasks == old(tasks) + [NewTask(d, id, now, nowMs)]
      ensures activities == Logged(old(activities), CreateActivity(d, id, activityId, activityTime))
    {
      var newTask := Task(id, d.title, d.description, d.assigneeId, d.status, d.priority, d.tags, d.dueDate,
                          now, now, nowMs);
      tasks := tasks + [newTask];
      RecordActivity(Create, newTask.id, d.assigneeId, "created task \"" + newTask.title + "\"",
                     activityId, activityTime);
    }

    method UpdateTask(id: string, updates: TaskPatch, now: string, activityId: string, activityTime: string)
      modifies this
      ensures tasks == UpdatedTasks(old(tasks), id, updates, now)
      ensures activities == LoggedIfAny(old(activities), UpdateActivity(tasks, id, activityId, activityTime))
    {
      var current := tasks;
      tasks := seq(|current|, i requires 0 <= i < |current| =>
        if current[i].id == id then Merge(current[i], updates, now) else current[i]);
      var task := GetTaskById(id);
      if task.Some? {
        RecordActivity(Update, id, task.value.assigneeId, "updated task \"" + task.value.title + "\"",
                       activityId, activityTime);
      }
    }

    method DeleteTask(id: string, activityId: string, activityTime: string)
      modifies this
      ensures tasks == RemovedTasks(old(tasks), id)
      ensures activities == LoggedIfAny(old(activities), DeleteActivity(old(tasks), id, activityId, activityTime))
    {
      var task := GetTaskById(id);
      tasks := Filter(Without(id), tasks);
      if task.Some? {
        RecordActivity(Delete, id, task.value.assigneeId, "deleted task \"" + task.value.title + "\"",
                       activityId, activityTime);
      }
    }

    method MoveTask(id: string, newStatus: Status, newOrder: real, now: string, activityId: string, activityTime: string)
      modifies this
      ensures tasks == MovedTasks(old(tasks), id, newStatus, newOrder, now)
      ensures activities == LoggedIfAny(old(activities), MoveActivity(old(tasks), id, newStatus, activityId, activityTime))
    {
      var task := GetTaskById(id);
      var statusChanged := task.Some? && task.value.status != newStatus;
      var current := tasks;
      tasks := seq(|current|, i requires 0 <= i < |current| =>
        if current[i].id == id then current[i].(status := newStatus, order := newOrder, updatedAt := now)
        else current[i]);
      if statusChanged && task.Some? {
        RecordActivity(StatusChange, id, task.value.assigneeId,
                       "moved task to " + ReplaceFirst(StatusId(newStatus), '_', ' '), activityId, activityTime);
      }
    }
  }

  // ---------------------------------------------------------------------
  // Properties of the store's transitions

  /** `addTask` keeps every field of the draft, and nothing else of the
      draft is lost: the draft can be read back from the new task. */
  lemma NewTaskKeepsDraft(d: TaskDraft, id: string, now: string, nowMs: real)
    ensures DraftOf(NewTask(d, id, now, nowMs)) == d
    ensures var t := NewTask(d, id, now, nowMs);
      t.id == id && t.createdAt == now && t.updatedAt == now && t.order == nowMs
    ensures forall t :: NewTask(DraftOf(t), t.id, t.createdAt, t.order) == t <==> t.createdAt == t.updatedAt
  {
  }

  /** Merging always stamps `now`: an `updatedAt` among the updates is
      ignored, an empty patch changes only the stamp, a later patch wins
      over an earlier one, and merging the same patch twice is merging it
      once. */
  lemma MergeLaws(t: Task, p: TaskPatch, q: TaskPatch, now: string, later: string)
    ensures Merge(t, p, now).updatedAt == now
    ensures forall x :: Merge(t, p.(updatedAt := x), now) == Merge(t, p, now)
    ensures Merge(t, EmptyPatch, now) == t.(updatedAt := now)
    ensures Merge(Merge(t, p, now), q, later) == Merge(t, Combine(p, q), later)
    ensures Merge(Merge(t, p, now), p, now) == Merge(t, p, now)
  {
  }

  /** `updateTask` changes only the tasks with the id, keeps the list's
      length, and with an unknown id changes nothing. A task it changes is
      stamped `now` and keeps every field the patch leaves out (shown here
      for the id, status, title and order; `MergeLaws` gives the rest). */
  lemma UpdatedTasksSpec(tasks: seq<Task>, id: string, p: TaskPatch, now: string)
    ensures |UpdatedTasks(tasks, id, p, now)| == |tasks|
    ensures forall i :: 0 <= i < |tasks| && tasks[i].id != id ==> UpdatedTasks(tasks, id, p, now)[i] == tasks[i]
    ensures forall i :: 0 <= i < |tasks| && tasks[i].id == id ==>
      var r := UpdatedTasks(tasks, id, p, now)[i];
      r.updatedAt == now && (p.id.None? ==> r.id == id) && (p.status.None? ==> r.status == tasks[i].status)
      && (p.title.None? ==> r.title == tasks[i].title) && (p.order.None? ==> r.order == tasks[i].order)
    ensures (forall t :: t in tasks ==> t.id != id) ==> UpdatedTasks(tasks, id, p, now) == tasks
  {
    if forall t :: t in tasks ==> t.id != id {
      forall i | 0 <= i < |tasks| ensures UpdatedTasks(tasks, id, p, now)[i] == tasks[i] {
        assert tasks[i] in tasks;
      }
    }
  }

  /** The activity of `updateTask` describes the task as it is after the
      update: its new assignee and its new title. There is none when no task
      had the id, nor when the update gave the task another id. */
  lemma UpdateActivityAfterMerge(tasks: seq<Task>, id: string, p: TaskPatch, now: string, aid: string, time: string)
    ensures var i := FindIndex(tasks, id);
      var a := UpdateActivity(UpdatedTasks(tasks, id, p, now), id, aid, time);
      (i == -1 || (p.id.Some? && p.id.value != id) ==> a.None?)
      && (i >= 0 && (p.id.None? || p.id.value == id) ==>
            var m := Merge(tasks[i], p, now);
            a == Some(Activity(aid, Update, id, m.assigneeId, time, "updated task \"" + m.title + "\"")))
  {
    var u := UpdatedTasks(tasks, id, p, now);
    var i := FindIndex(tasks, id);
    var j := FindIndex(u, id);
    if i >= 0 && (p.id.None? || p.id.value == id) {
      assert u[i] == Merge(tasks[i], p, now);
      assert u[i].id == id;
      forall k | 0 <= k < i ensures u[k].id != id {
        assert u[k] == tasks[k];
      }
      assert j == i;
    } else {
      forall k | 0 <= k < |u| ensures u[k].id != id {
        if tasks[k].id == id {
          assert u[k] == Merge(tasks[k], p, now);
        } else {
          assert u[k] == tasks[k];
        }
      }
      assert j == -1;
    }
  }

  /** `deleteTask` removes exactly the tasks with the id and keeps the
      others in their order; with an unknown id it changes nothing. */
  lemma RemovedTasksSpec(tasks: seq<Task>, id: string)
    ensures SubsequenceOf(RemovedTasks(tasks, id), tasks)
    ensures forall t :: t in RemovedTasks(tasks, id) <==> t in tasks && t.id != id
    ensures |RemovedTasks(tasks, id)| == |tasks| - CountWhere(HasId(id), tasks)
    ensures (forall t :: t in tasks ==> t.id != id) ==> RemovedTasks(tasks, id) == tasks
  {
    FilterIsSubsequence(Without(id), tasks);
    FilterComplement(HasId(id), Without(id), tasks);
    if forall t :: t in tasks ==> t.id != id {
      FilterAll(Without(id), tasks);
    }
  }

  /** `deleteTask` reports the task it found before deleting it. */
  lemma DeleteActivitySpec(tasks: seq<Task>, id: string, aid: string, time: string)
    ensures DeleteActivity(tasks, id, aid, time).None? <==> forall t :: t in tasks ==> t.id != id
    ensures DeleteActivity(tasks, id, aid, time).Some? ==>
      var t := tasks[FindIndex(tasks, id)];
      DeleteActivity(tasks, id, aid, time).value
        == Activity(aid, Delete, id, t.assigneeId, time, "deleted task \"" + t.title + "\"")
  {
    FindTaskSpec(tasks, id);
  }

  /** `moveTask` is the update with just a status and an order. */
  lemma MoveIsUpdate(tasks: seq<Task>, id: string, status: Status, order: real, now: string)
    ensures MovedTasks(tasks, id, status, order, now)
      == UpdatedTasks(tasks, id, EmptyPatch.(status := Some(status), order := Some(order)), now)
    ensures |MovedTasks(tasks, id, status, order, now)| == |tasks|
  {
  }

  /** `moveTask` changes the status, the order and the stamp of the tasks
      with the id and nothing else. */
  lemma MovedTasksSpec(tasks: seq<Task>, id: string, status: Status, order: real, now: string)
    ensures |MovedTasks(tasks, id, status, order, now)| == |tasks|
    ensures forall i :: 0 <= i < |tasks| && tasks[i].id != id ==> MovedTasks(tasks, id, status, order, now)[i] == tasks[i]
    ensures forall i :: 0 <= i < |tasks| && tasks[i].id == id ==>
      var r := MovedTasks(tasks, id, status, order, now)[i];
      r.status == status && r.order == order && r.updatedAt == now
      && r.id == id && r.title == tasks[i].title && r.assigneeId == tasks[i].assigneeId
      && DraftOf(r) == DraftOf(tasks[i]).(status := status) && r.createdAt == tasks[i].createdAt
  {
  }

  /** A status change is recorded exactly when the task exists and its
      status changes; the message spells the status with its first `_` made
      a space. */
  lemma MoveActivitySpec(tasks: seq<Task>, id: string, status: Status, aid: string, time: string)
    ensures MoveActivity(tasks, id, status, aid, time).Some? <==>
      exists i :: 0 <= i < |tasks| && i == FindIndex(tasks, id) && tasks[i].status != status
    ensures MoveActivity(tasks, id, status, aid, time).Some? ==>
      MoveActivity(tasks, id, status, aid, time).value.message == MoveMessage(status)
  {
    if FindIndex(tasks, id) >= 0 {
      var i := FindIndex(tasks, id);
      assert 0 <= i < |tasks| && i == FindIndex(tasks, id);
    }
  }

  /** Only the first `_` of a status id becomes a space: the messages read
      "moved task to todo", "... in progress", "... in review" and
      "... done". */
  lemma MoveMessages(s: Status)
    ensures MoveMessage(s) == "moved task to " + (match s
      case Todo => "todo"
      case InProgress => "in progress"
      case InReview => "in review"
      case Done => "done")
  {
    match s
    case Todo => ReplaceFirstNone("todo");
    case Done => ReplaceFirstNone("done");
    case InProgress => SpacedId("in", "progress", "in_progress", "in progress");
    case InReview => SpacedId("in", "review", "in_review", "in review");
  }

  /** A two-word status id has its underscore replaced by a space. */
  lemma SpacedId(a: string, b: string, id: string, text: string)
    requires '_' !in a && id == a + "_" + b && text == a + " " + b
    ensures ReplaceFirst(id, '_', ' ') == text
  {
    ReplaceFirstAfter(a, b);
  }

  lemma {:induction false} ReplaceFirstAfter(a: string, b: string)
    requires '_' !in a
    ensures ReplaceFirst(a + "_" + b, '_', ' ') == a + " " + b
    decreases |a|
  {
    if a != [] {
      assert (a + "_" + b)[1..] == a[1..] + "_" + b;
      ReplaceFirstAfter(a[1..], b);
    }
  }

  lemma {:induction false} ReplaceFirstNone(a: string)
    requires '_' !in a
    ensures ReplaceFirst(a, '_', ' ') == a
    decreases |a|
  {
    if a != [] {
      ReplaceFirstNone(a[1..]);
    }
  }

  /** The log keeps the newest entry first, then a prefix of the previous
      log, and never more than 100 entries. */
  lemma LoggedSpec(log: seq<Activity>, a: Activity)
    ensures |Logged(log, a)| == if |log| + 1 < MaxActivities then |log| + 1 else MaxActivities
    ensures Logged(log, a)[0] == a
    ensures Logged(log, a)[1..] <= log
    ensures |log| < MaxActivities ==> Logged(log, a) == [a] + log
  {
  }
}
