# Task board core, modelled in Dafny

This project models the core of a kanban task manager written in TypeScript and React.

- **Task utilities** (`src/utils/tasks.ts`): filtering the board by assignee, tag, priority and search query, grouping the tasks into the four status columns, ordering by the fractional `order` key, computing insertion keys, renumbering after a reorder, and counting tasks per status.
- **Drop handler** (`handleDragEnd` in `src/components/board/Board.tsx`): the decision the board takes when a card is dropped, returned as the list of `moveTask(id, status, order)` calls it makes, or the `TypeError` JavaScript would throw.
- **State stores** (zustand): tasks and activity log, filters and view mode, custom tags, sticky notes, users, and the UI flags. Each store is a Dafny `class` whose fields the actions reassign. Every action's `ensures` gives the whole new state as a function of the old one. Lemmas about those functions state what the actions promise.
- **Counting analytics** (`src/utils/analytics.ts`): the status × priority matrix, the tag distribution, the open workload per user and the progress figure. The two counters that loop over a mutable record are methods with loop invariants, proved equal to a specification function.
- **String helpers** (`src/utils/misc.ts`): `truncate` and `getInitials`.

Modules follow the source files:

| file | module | models |
|---|---|---|
| `seqs.dfy` | `Seqs` | `filter`, `find`, a stable insertion sort and its laws |
| `text.dfy` | `Text` | ASCII case mapping, `trim`, `includes`, `split`/`join`, `replace` of one character |
| `types.dfy` | `Types` | the record types, `STATUS_CONFIG`, `ALL_TAGS`, `TAG_COLORS` |
| `task_utils.dfy` | `TaskUtils` | `src/utils/tasks.ts` |
| `board.dfy` | `Board` | `handleDragEnd` |
| `tasks_store.dfy` | `TasksStore` | `src/store/useTasksStore.ts` |
| `filters_store.dfy` | `FiltersStore` | `src/store/useFiltersStore.ts` |
| `tags_store.dfy` | `TagsStore` | `src/store/useTagsStore.ts` |
| `notes_store.dfy` | `NotesStore` | `src/store/useNotesStore.ts` |
| `users_store.dfy` | `UsersStore` | `src/store/useUsersStore.ts` |
| `ui_store.dfy` | `UIStore` | `src/store/useUIStore.ts` |
| `analytics.dfy` | `Analytics` | the four clock-free functions of `src/utils/analytics.ts` |
| `misc.dfy` | `Misc` | `truncate`, `getInitials` |

Modelling choices:

- **Order keys.** JavaScript numbers used as order keys are Dafny `real`s, which are exact.
- **Sorting.** `Array.prototype.sort` is stable. It is modelled by a stable insertion sort, `Seqs.SortBy`. `Seqs.StableSortIsSortBy` proves that any sorted, stable rearrangement equals it.
- **Descending comparators.** A comparator `(a, b) => b.x - a.x` is the ascending sort on the key `-x`.
- **Optional fields.** An optional field is an `Option`. A `Partial<Task>` patch uses `Option<Option<..>>` for the optional fields: a key that is present with the value `undefined` clears the field.
- **Truthiness.** An `assigneeId` of `""` counts as absent, because it is falsy, in the filters and in the workload.
- **Ids and clock readings.** Fresh ids and clock readings are parameters of the actions.

Behaviour worth noting:

- The activity `updateTask` records reads the task after the merge. Its `userId` and title are therefore the new ones, and there is no activity when the update changes the task's id (`TasksStore.UpdateActivityAfterMerge`).
- A cross-column drop on a task that the filters hide from its column reads `tasksInColumn[-1]` (empty column) or `tasksInColumn[-2]` (otherwise), which is `undefined`, so taking its `order` throws. This is modelled as the `TypeError` outcome (`Board.DragEndCrossColumn`). A drop on a visible task never takes that path (`Board.DragEndOnVisibleTask`).
- Toggling a filter value twice gives a duplicate-free list back only when the value was absent or was the last element. A value that was present returns at the end (`FiltersStore.ToggleTwice` proves both directions).
- The search query is lower-cased but not trimmed before the substring test. A query with surrounding spaces has to match those spaces as well (`TaskUtils.UntrimmedQueryExample`).

## Model

| member | source | states |
|---|---|---|
| Types.StatusIdRoundTrip | src/types/index.ts:205-210 | a column's droppable id names exactly one status, and looking up a status's id gives that status back |
| Seqs.FilterIsSubsequence | src/utils/tasks.ts:7-43 | `filter` returns a subsequence of its input, in order |
| Seqs.SortByPermutes | src/utils/tasks.ts:72-74 | the stable sort is a permutation of its input |
| Seqs.SortBySorted | src/utils/tasks.ts:72-74 | the sort's result is ascending by the key |
| Seqs.SortByStable | src/utils/tasks.ts:72-74 | elements with equal keys keep their input order |
| Seqs.StableSortIsSortBy | src/utils/tasks.ts:72-74 | every ascending rearrangement that keeps equal keys in input order equals the insertion sort |
| Text.TrimEmptyIffBlank | src/utils/tasks.ts:31 | `trim()` is empty exactly when the string is all white space |
| Text.TrimFacts | src/utils/misc.ts:93 | `trim()` returns a piece of the string that neither starts nor ends with white space, and only white space lies around that piece |
| Text.ContainsIffOccurs | src/utils/tasks.ts:33-35 | `includes` holds exactly when the query occurs at some index |
| Text.ToLowerFacts | src/store/useTagsStore.ts:67 | lower-casing keeps the length, yields a lower-case string, and is idempotent |
| Text.SplitPieces | src/utils/misc.ts:112 | `split` returns at least one piece, and no piece holds the separator |
| Text.SplitJoin | src/utils/misc.ts:112 | joining the split pieces with the separator gives back the string |
| Text.ReplaceFirstFacts | src/store/useTasksStore.ts:129 | `replace` on a character changes only its first occurrence, and keeps the length |
| TaskUtils.FindIndex | src/components/board/Board.tsx:73-74 | `findIndex` returns the first index holding the id, or -1 when none does |
| TaskUtils.FindTaskSpec | src/store/useTasksStore.ts:150 | `find` by id returns the first task with the id, and nothing exactly when no task has it |
| TaskUtils.KeepIffCriteria | src/utils/tasks.ts:7-43 | the early-return predicate is exactly the AND of the assignee, tag, priority and query criteria |
| TaskUtils.QueryMatchesIffOccurs | src/utils/tasks.ts:32-37 | the query test holds exactly when the lower-cased query occurs in the lower-cased title, the description or a tag |
| TaskUtils.ApplyFiltersSpec | src/utils/tasks.ts:6-44 | the result is a subsequence of the tasks, holding exactly the tasks that meet all four criteria; an unassigned task always passes the assignee criterion |
| TaskUtils.ApplyFiltersNoCriteria | src/utils/tasks.ts:6-44 | with three empty lists and a blank query, the input comes back unchanged |
| TaskUtils.UntrimmedQueryExample | src/utils/tasks.ts:31-34 | the query " bug " hides a task titled "bug": the query is trimmed only for the blank test |
| TaskUtils.SortByOrderSpec | src/utils/tasks.ts:72-74 | `sortByOrder` returns an ascending, stable permutation |
| TaskUtils.SortByOrderUnique | src/utils/tasks.ts:72-74 | any stable ascending sort by order equals `sortByOrder` |
| TaskUtils.GroupByStatus | src/utils/tasks.ts:49-67 | the push loop followed by the per-bucket sort returns each status's tasks, sorted by order |
| TaskUtils.GroupedPartition | src/utils/tasks.ts:49-59 | each task lands in exactly the bucket of its status; each bucket's length is that status's count; the lengths sum to the number of tasks |
| TaskUtils.GroupedSortedStable | src/utils/tasks.ts:62-64 | each bucket is ascending by order, and tasks with equal order keep their input order |
| TaskUtils.StatusPartition | src/utils/tasks.ts:124-131 | the four status filters together are as long as the task list |
| TaskUtils.StatusCountsTotal | src/utils/tasks.ts:124-131 | the four counts add up to the number of tasks |
| TaskUtils.ComputeNextOrderPlaces | src/utils/tasks.ts:80-99 | an empty column gives 1000; on a strictly ascending column the key lies below exactly the tasks before the target index, and differs from every key |
| TaskUtils.ArrayMoveSpec | src/utils/tasks.ts:110-112 | remove-then-insert keeps the length and the multiset, puts the moved task at the destination, and keeps the others in order |
| TaskUtils.ReorderTasks | src/utils/tasks.ts:105-119 | the splice, then the renumbering (a sequence comprehension standing for the `map`), returns the moved list renumbered 1000, 2000, …, strictly ascending, with the source task at the destination |
| TaskUtils.RenumberedSpec | src/utils/tasks.ts:115-118 | renumbering gives strictly ascending orders and keeps each task's id and status |
| Board.HandleDragEnd | src/components/board/Board.tsx:41-107 | the early-return handler makes exactly the calls that `DragEnd` describes |
| Board.HandleDropOnTask | src/components/board/Board.tsx:66-105 | the part after the target task is found, equal to `DropOnTask` |
| Board.RenumberColumn | src/components/board/Board.tsx:84-89 | the `forEach` loop issues exactly the renumbering calls `RenumberMoves` lists |
| Board.DragEndNoOps | src/components/board/Board.tsx:45-67 | there are no moves without a drop target or for an unknown dragged id, nor for a card dropped on itself |
| Board.DragEndOnColumn | src/components/board/Board.tsx:55-63 | a drop on a column makes one move of the dragged task to that status, with `computeNextOrder` at the column's end; on a sorted column that order lies above every visible task |
| Board.RenumberMovesSpec | src/components/board/Board.tsx:84-89 | a call is made exactly for each task whose order is not its slot's, with its id, status and slot order |
| Board.SameColumnRenumbers | src/components/board/Board.tsx:81-89 | every task needing a new slot order gets a move, and every move keeps a column task's status and changes its order |
| Board.SameColumnPlacement | src/components/board/Board.tsx:81 | `arrayMove` puts the dragged task at the target's index and keeps the rest in order |
| Board.CrossColumnIsNextOrder | src/components/board/Board.tsx:93-103 | the cross-column order is `computeNextOrder` at the target index (the end for the last of several); index -1 is the TypeError |
| Board.CrossColumnPlacement | src/components/board/Board.tsx:94-103 | the new order sorts before the first task, after the last, or between the target and its predecessor |
| Board.DragEndCrossColumn | src/components/board/Board.tsx:90-105 | a cross-column drop is one move of the dragged task to the target's status; it throws exactly when the target is not in its visible column |
| Board.DropOnTaskTouchesColumnOnly | src/components/board/Board.tsx:66-105 | a drop on a task moves only the dragged task or tasks of the target's column, each keeping its status |
| Board.SortedColumnMembers | src/components/board/Board.tsx:70 | the sorted column holds exactly the visible tasks of that status |
| Board.DragEndTouchesVisibleOnly | src/components/board/Board.tsx:41-107 | a drop moves only the dragged task or visible tasks, and changes no other task's status |
| Board.DragEndOnVisibleTask | src/components/board/Board.tsx:73-103 | a drop on a visible task never throws |
| Board.DragEndUnderFilters | src/components/board/Board.tsx:21-24 | with columns built from the filtered tasks, tasks the filters hide are never moved, except the dragged task |
| TasksStore.TaskStore.constructor | src/store/useTasksStore.ts:36-37 | the store starts with no tasks and no activities |
| TasksStore.TaskStore.GetTaskById | src/store/useTasksStore.ts:150 | the lookup returns a task with the id, or nothing exactly when there is none, and reads only the store |
| TasksStore.TaskStore.SetTasks | src/store/useTasksStore.ts:39 | the task list becomes the argument, and the log stays as it was |
| TasksStore.TaskStore.SetActivities | src/store/useTasksStore.ts:134 | the log becomes the argument, and the tasks stay as they were |
| TasksStore.TaskStore.RecordActivity | src/store/useTasksStore.ts:136-148 | the new entry goes first and the log is cut to 100 entries; the tasks are unchanged |
| TasksStore.TaskStore.AddTask | src/store/useTasksStore.ts:41-64 | one new task at the end and one `create` activity |
| TasksStore.TaskStore.UpdateTask | src/store/useTasksStore.ts:66-87 | the matching tasks are merged, and an `update` activity is recorded when the lookup after the merge finds the task |
| TasksStore.TaskStore.DeleteTask | src/store/useTasksStore.ts:89-107 | the tasks with the id are removed, and a `delete` activity is recorded for a task found before the removal |
| TasksStore.TaskStore.MoveTask | src/store/useTasksStore.ts:109-132 | the status, order and stamp of the matching tasks change, with a `status_change` activity when the status differs |
| TasksStore.NewTaskKeepsDraft | src/store/useTasksStore.ts:43-49 | the new task has the fresh id, `now` as both stamps, `nowMs` as order, and every draft field |
| TasksStore.MergeLaws | src/store/useTasksStore.ts:70 | the merge always stamps `now` and ignores an `updatedAt` update; an empty patch changes only the stamp; a later patch wins; merging twice equals merging once |
| TasksStore.UpdatedTasksSpec | src/store/useTasksStore.ts:68-72 | tasks without the id are unchanged; a task with the id is stamped `now` and keeps the id, status, title and order the patch leaves out; the length stays; an unknown id changes nothing |
| TasksStore.UpdateActivityAfterMerge | src/store/useTasksStore.ts:78-85 | the activity carries the merged task's assignee and title; there is none for an unknown id or for an update that changes the id |
| TasksStore.RemovedTasksSpec | src/store/useTasksStore.ts:93 | the tasks with the id are removed, the rest keep their order, and the count drops by the number of matches |
| TasksStore.DeleteActivitySpec | src/store/useTasksStore.ts:90-106 | a `delete` activity exists exactly when the task existed, and it carries the assignee and title from before the deletion |
| TasksStore.MoveIsUpdate | src/store/useTasksStore.ts:114-118 | a move is an update of status and order only, and keeps the task count |
| TasksStore.MovedTasksSpec | src/store/useTasksStore.ts:114-118 | tasks without the id are unchanged; a task with the id gets the status, order and stamp and keeps its id, draft fields and `createdAt`; the length stays |
| TasksStore.MoveActivitySpec | src/store/useTasksStore.ts:110-131 | an activity is recorded exactly when the first task with the id exists and its status changes, and it carries the move message |
| TasksStore.MoveMessages | src/store/useTasksStore.ts:129 | the messages read "moved task to todo", "in progress", "in review" and "done" |
| TasksStore.LoggedSpec | src/store/useTasksStore.ts:144 | the log is newest first, followed by a prefix of the old log, and has at most 100 entries |
| FiltersStore.FilterStore.constructor | src/store/useFiltersStore.ts:24-25 | the store starts with the initial filters and the kanban view |
| FiltersStore.FilterStore.SetFilters | src/store/useFiltersStore.ts:27-30 | the supplied keys overwrite the filters, and the view mode is kept |
| FiltersStore.FilterStore.ResetFilters | src/store/useFiltersStore.ts:32 | the filters become the initial ones |
| FiltersStore.FilterStore.SetViewMode | src/store/useFiltersStore.ts:34-37 | the view mode is set, and the filters are kept |
| FiltersStore.FilterStore.ToggleTag | src/store/useFiltersStore.ts:39-45 | only the tag list is toggled |
| FiltersStore.FilterStore.TogglePriority | src/store/useFiltersStore.ts:47-53 | only the priority list is toggled |
| FiltersStore.FilterStore.ToggleAssignee | src/store/useFiltersStore.ts:55-61 | only the assignee list is toggled |
| FiltersStore.InitialFiltersShowAll | src/store/useFiltersStore.ts:16-21 | the initial filters hide no task |
| FiltersStore.MergeFiltersLaws | src/store/useFiltersStore.ts:29 | exactly the supplied keys are overwritten; an empty patch is the identity; a later patch wins |
| FiltersStore.ToggledSpec | src/store/useFiltersStore.ts:41-43 | a present value loses every occurrence and the rest keep their order; an absent value is appended |
| FiltersStore.ToggledNoDuplicates | src/store/useFiltersStore.ts:41-43 | toggling keeps a list free of duplicates |
| FiltersStore.ToggleTwice | src/store/useFiltersStore.ts:41-43 | on a duplicate-free list, two toggles restore it exactly when the value was absent or last; otherwise the value moves to the end |
| TagsStore.TagStore.constructor | src/store/useTagsStore.ts:61-62 | the tags are the stored list, or the defaults |
| TagsStore.TagStore.LoadTags | src/store/useTagsStore.ts:103-105 | the tags are reloaded from storage, or set to the defaults |
| TagsStore.TagStore.AddTag | src/store/useTagsStore.ts:64-77 | one tag is appended, with the lower-cased name |
| TagsStore.TagStore.UpdateTag | src/store/useTagsStore.ts:79-89 | the tags with the id get the lower-cased name and the color |
| TagsStore.TagStore.DeleteTag | src/store/useTagsStore.ts:91-97 | the tags with the id are removed |
| TagsStore.TagStore.GetTagByName | src/store/useTagsStore.ts:99-101 | returns a tag whose name matches up to case, or nothing exactly when no name matches |
| TagsStore.DefaultTagsSpec | src/store/useTagsStore.ts:23-35 | 11 default tags, named exactly as `ALL_TAGS` in its order, with the fresh ids |
| TagsStore.DefaultTagColors | src/store/useTagsStore.ts:23-35 | each default tag has its `TAG_COLORS` color |
| TagsStore.TagByNameSpec | src/store/useTagsStore.ts:99-101 | the lookup returns the first tag matching up to case, or nothing |
| TagsStore.AddThenLookUp | src/store/useTagsStore.ts:64-77 | an added tag's name is lower case, and a lookup in any case finds it or an older tag of that name |
| TagsStore.UpdatedTagsSpec | src/store/useTagsStore.ts:81-85 | the tags with the id get the lower-cased name and the color, keeping id and `createdAt`; others are unchanged; an unknown id is a no-op |
| TagsStore.RemovedTagsSpec | src/store/useTagsStore.ts:93 | exactly the tags with the id are removed, and the others keep their order |
| NotesStore.NoteStore.constructor | src/store/useNotesStore.ts:35 | the notes are the stored list, or none |
| NotesStore.NoteStore.LoadNotes | src/store/useNotesStore.ts:73-75 | the notes are reloaded from storage, or emptied |
| NotesStore.NoteStore.AddNote | src/store/useNotesStore.ts:37-51 | one note is appended, and the others are unchanged |
| NotesStore.NoteStore.UpdateNote | src/store/useNotesStore.ts:53-63 | the state becomes `UpdatedNotes` of the old notes |
| NotesStore.NoteStore.DeleteNote | src/store/useNotesStore.ts:65-71 | the state becomes `RemovedNotes` of the old notes |
| NotesStore.UpdatedNotesSpec | src/store/useNotesStore.ts:55-59 | only content and `updatedAt` change, only on the notes with the id; the count stays; an unknown id is a no-op |
| NotesStore.RemovedNotesSpec | src/store/useNotesStore.ts:67 | exactly the notes with the id are removed, the rest keep their order, and the count drops by the number of matches |
| UsersStore.UserStore.constructor | src/store/useUsersStore.ts:11 | the user list starts empty |
| UsersStore.UserStore.SetUsers | src/store/useUsersStore.ts:13 | the list becomes exactly the argument |
| UsersStore.UserStore.GetUserById | src/store/useUsersStore.ts:15 | returns a user with the id, or nothing exactly when there is none, and reads only the store |
| UsersStore.UserByIdSpec | src/store/useUsersStore.ts:15 | the lookup returns the first user with the id |
| UIStore.UIStore.constructor | src/store/useUIStore.ts:24-26 | the modal starts closed in create mode with no task, and the confirmation starts closed |
| UIStore.UIStore.ToggleDarkMode | src/store/useUIStore.ts:28-41 | dark mode is negated, and the modals are untouched |
| UIStore.UIStore.SetDarkMode | src/store/useUIStore.ts:43-52 | dark mode is set to the argument, and the modals are untouched |
| UIStore.UIStore.OpenTaskModal | src/store/useUIStore.ts:54-55 | the modal is open with exactly the mode and task, and nothing else changes |
| UIStore.UIStore.CloseTaskModal | src/store/useUIStore.ts:57-58 | the modal is closed, in create mode, with no task, whatever the state before |
| UIStore.UIStore.OpenDeleteConfirm | src/store/useUIStore.ts:60-61 | the confirmation is open for the task |
| UIStore.UIStore.CloseDeleteConfirm | src/store/useUIStore.ts:63-64 | the confirmation is closed, with no task |
| UIStore.InitialDarkModeSpec | src/store/useUIStore.ts:18-21 | the board starts light exactly when a non-empty stored value other than "true" is present; otherwise it starts dark |
| Analytics.PriorityPartition | src/utils/analytics.ts:86-88 | the three priority counts add up to the number of tasks |
| Analytics.StatusPriorityRowSpec | src/utils/analytics.ts:82-89 | a row has its status's label, and its low, medium and high counts add up to that status's count |
| Analytics.StatusPriorityMatrixSpec | src/utils/analytics.ts:72-91 | four rows, "To Do" first and "Done" last, each splitting its column's count |
| Analytics.StatusPriorityMatrixTotal | src/utils/analytics.ts:81-90 | the row totals add up to the number of tasks |
| Analytics.DistinctSpec | src/utils/analytics.ts:105 | the record's keys are the tags that occur, each once |
| Analytics.TagCountsSpec | src/utils/analytics.ts:99-103 | the counter holds each occurring tag's number of occurrences |
| Analytics.CountTags | src/utils/analytics.ts:100-102 | the inner loop extends the counter and its key order by one task's tags |
| Analytics.BuildTagDistribution | src/utils/analytics.ts:96-112 | the counting loops', entries' and sort's result is `TagDistribution` |
| Analytics.DistinctSlicesSpec | src/utils/analytics.ts:105-110 | before sorting there is one entry per distinct tag, with its count and color |
| Analytics.TagDistributionEntries | src/utils/analytics.ts:96-112 | each entry counts its tag's occurrences with its `TAG_COLORS` color or `#6b7280`, and every tag that occurs has an entry |
| Analytics.TagDistributionOrdered | src/utils/analytics.ts:111 | entry names are distinct, and values are non-increasing |
| Analytics.TagDistributionTotal | src/utils/analytics.ts:99-111 | the values add up to the total number of tags |
| Analytics.CountStep | src/utils/analytics.ts:164-168 | counting one more task keeps each key's open count |
| Analytics.WorkloadByUser | src/utils/analytics.ts:161-177 | the counting loop followed by the entries and the sort returns `Workload` |
| Analytics.WorkloadSpec | src/utils/analytics.ts:170-176 | one entry per user, holding that user's count of open assigned tasks, a permutation of the per-user entries, in non-increasing count order |
| Analytics.WorkloadIgnores | src/utils/analytics.ts:164-168 | a done task, an unassigned task or a task assigned to a non-user changes no entry |
| Analytics.RoundQuotientSpec | src/utils/analytics.ts:211 | the rounded quotient is within one half of the exact one, halves rounded up |
| Analytics.PercentageAtMost100 | src/utils/analytics.ts:211 | a share of at most the whole rounds to at most 100 |
| Analytics.CalculateProgressSpec | src/utils/analytics.ts:208-214 | total is the count and completed the Done count, completed ≤ total, 0 % without tasks, the rounded share otherwise, at most 100 |
| Misc.SliceTo | src/utils/misc.ts:93 | `slice(0, end)` clamps a large end and counts a negative end from the back |
| Misc.TruncateSpec | src/utils/misc.ts:91-94 | a text that fits is unchanged; otherwise the result is a piece of the first `maxLength` characters with only white space around it, which itself neither starts nor ends with white space (the trim), followed by "..." |
| Misc.TruncateLength | src/utils/misc.ts:91-94 | for `maxLength ≥ 0` the result is at most `maxLength + 3` long |
| Misc.TruncateNegative | src/utils/misc.ts:93 | a negative limit keeps all but the last `-maxLength` characters before trimming |
| Misc.FirstCharsOfNonEmpty | src/utils/misc.ts:113-114 | the joined first characters are those of the non-empty pieces, in order |
| Misc.GetInitialsSpec | src/utils/misc.ts:110-117 | at most two characters: the upper-cased first letters of the first two words; a name of spaces only gives "" |
| Misc.NoWordsInSpaces | src/utils/misc.ts:111-112 | a string of spaces has no words |

## Left out

- Persistence is not modelled: `saveTasks`, `saveActivities`, the Dexie database and every `localStorage` write, including the default-tags write in `loadFromStorage` and the view-mode write. These are fire-and-forget effects whose ordering is a concurrency matter.
- Storage reads are not modelled: they are parameters. The loaders take the already parsed value (`None` for nothing stored), so `JSON.parse` and its failure path, which falls back to the defaults, are not modelled.
- Fresh ids (`crypto.randomUUID`, `generateId`) and clock readings (`new Date()`, `Date.now()`) are parameters of the actions. `addNote` reads the clock twice, so it takes two stamps.
- TagsStore.DefaultTags: all default tags take one `createdAt`, whereas the source reads the clock once per entry.
- The date-based analytics are not modelled: `computeCompletionRate`, `computeOnTimePercentage`, `countOverdue`, `buildVelocitySeries`, `leaderboardCompleted` and `src/utils/date.ts`. They depend on the current time and date-fns.
- Analytics.CalculateProgress: `Math.round((completed / total) * 100)` is modelled as exact round-half-up of the rational `100 · completed / total`. Floating-point error in the division is not modelled.
- Analytics.BuildTagDistribution: `Object.entries` is modelled as insertion order. JavaScript lists canonical array-index keys first, in ascending numeric order. So a custom tag whose name is such a numeral, like "1" or "2024", is listed before the other tags of equal count in the source; the model keeps insertion order. JavaScript's property-order rules for objects are not modelled. The `Record` counter is modelled as a clean `map`: a tag named after an inherited property such as `constructor` makes the source's `|| 0` read that property; the model counts it like any other tag.
- Text.ToLower, Text.ToUpper and Text.Trim are ASCII only. Full Unicode case mapping, Unicode white space and UTF-16 code units are not modelled.
- Board.DragEnd: the drag overlay, the sensors and the `activeTask` React state are not modelled; only the decision is.
- Board.DragEnd: the view does not renumber tasks hidden from a column, so their orders may coincide with the new ones. Only the calls made are modelled, not the board they produce.
- In `src/utils/misc.ts`, `cn`, `debounce`, `sanitizeHTML` and `getRandomColor` are left out: they are class-name, timer, DOM and randomness glue.
- The `document.documentElement` class toggling in the UI store and the `useFilteredTasks` memo hook are left out.
- The components' user, tag and note editors (`addUser`, deletion guards, note search) are left out; the users store defines only `setUsers` and `getUserById`.
- TasksStore.Merge and FiltersStore.MergeFilters: a present key whose value is `undefined` is not modelled for the required fields of a `Partial<Task>` or for any key of a `Partial<Filters>` (such as `{ query: undefined }`). TypeScript accepts it without `exactOptionalPropertyTypes`, but no caller passes one: the task form passes strings (`src/components/task/TaskModal.tsx:62-72`).
- TasksStore.TaskStore.UpdateTask and TasksStore.TaskStore.MoveTask: every matching task gets one `now`, whereas the source reads `new Date()` once per matched task inside `map`.
- TaskUtils.ComputeNextOrder: the target index is a `nat`. In the source a negative index throws (it reads `tasks[-1].order`). The function has no caller in `src/`.
- TaskUtils.ReorderTasks: the indices are `nat`s and the source index must be in range. In the source `splice` counts a negative index from the end, so `reorderTasks(ts, -1, 0)` moves the last task first. An out-of-range source index makes `removed` undefined, and the result then holds a bare `{order}` object. The function has no caller in `src/`.
- Misc.Truncate: `maxLength` is an integer. A fractional JavaScript number is truncated by `slice` but compared with its real value in `<=`; that case is not modelled.
