/** The board's entities (src/types/index.ts). Time stamps are ISO date
    strings in the source and stay opaque strings here; the order key is a
    JavaScript number, modelled as an exact `real`. */
module Types {

  datatype Option<+T> = None | Some(value: T)

  /** The four columns, in the order of STATUS_CONFIG. */
  datatype Status = Todo | InProgress | InReview | Done

  datatype Priority = Low | Medium | High

  datatype ActivityType = Create | Update | StatusChange | Delete | Comment

  datatype ViewMode = Kanban | List

  datatype ModalMode = CreateMode | EditMode

  datatype User = User(id: string, name: string, avatar: Option<string>, role: Option<string>)

  datatype Task = Task(
    id: string,
    title: string,
    description: string,
    assigneeId: Option<string>,
    status: Status,
    priority: Priority,
    tags: seq<string>,
    dueDate: Option<string>,
    createdAt: string,
    updatedAt: string,
    order: real)

  datatype Activity = Activity(
    id: string,
    activityType: ActivityType,
    taskId: string,
    userId: Option<string>,
    timestamp: string,
    message: string)

  datatype Note = Note(id: string, content: string, color: string, createdAt: string, updatedAt: string)

  datatype Filters = Filters(
    assignees: seq<string>,
    tags: seq<string>,
    priorities: seq<Priority>,
    query: string)

  /** The statuses in column order (STATUS_CONFIG). */
  const AllStatuses: seq<Status> := [Todo, InProgress, InReview, Done]

  /** The string id of a status, which is also its column's droppable id. */
  function StatusId(s: Status): string
  {
    match s
    case Todo => "todo"
    case InProgress => "in_progress"
    case InReview => "in_review"
    case Done => "done"
  }

  /** `STATUS_CONFIG.find(s => s.id === id)`. */
  function StatusFromId(id: string): Option<Status>
  {
    if id == "todo" then Some(Todo)
    else if id == "in_progress" then Some(InProgress)
    else if id == "in_review" then Some(InReview)
    else if id == "done" then Some(Done)
    else None
  }

  /** Status ids and column lookup are inverse to each other. */
  lemma StatusIdRoundTrip(s: Status, id: string)
    ensures StatusFromId(StatusId(s)) == Some(s)
    ensures StatusFromId(id) == Some(s) <==> id == StatusId(s)
  {
  }

  /** The display label of a status (STATUS_CONFIG). */
  function StatusLabel(s: Status): string
  {
    match s
    case Todo => "To Do"
    case InProgress => "In Progress"
    case InReview => "In Review"
    case Done => "Done"
  }

  /** ALL_TAGS. */
  const AllTags: seq<string> :=
    ["frontend", "backend", "bug", "feature", "design", "testing",
     "devops", "database", "api", "ui/ux", "document"]

  /** TAG_COLORS, looked up by key: `None` for a name that is not a key. */
  function TagColor(tag: string): Option<string>
  {
    if tag == "frontend" then Some("#3b82f6")
    else if tag == "backend" then Some("#8b5cf6")
    else if tag == "bug" then Some("#ef4444")
    else if tag == "feature" then Some("#10b981")
    else if tag == "design" then Some("#ec4899")
    else if tag == "testing" then Some("#f59e0b")
    else if tag == "devops" then Some("#06b6d4")
    else if tag == "database" then Some("#6366f1")
    else if tag == "api" then Some("#14b8a6")
    else if tag == "ui/ux" then Some("#f97316")
    else if tag == "document" then Some("#64748b")
    else None
  }

  /** JavaScript truthiness of an optional string: absent and `""` are
      falsy. */
  predicate IsTruthy(s: Option<string>)
  {
    s.Some? && s.value != ""
  }
}
