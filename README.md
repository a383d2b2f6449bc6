# Task board engine, modelled in Dafny

This project models the board engine of a kanban-style task board, which lives in
`app/composables/useTaskManager.ts`, together with its records (`app/types/task.ts`)
and the cover-image store it calls (`app/composables/useIndexedDB.ts`).

The board is a sequence of columns, and each column holds an ordered sequence of tasks.
The store keeps three pieces of state:

- the board in memory;
- a saved copy of the board in local storage, under the key `"task-board"`;
- a store of cover images, keyed by task id.

It offers these operations:

- create a task;
- update a task;
- delete a task;
- move a task to another column;
- save and load the board;
- compute a checklist's percentage of completion;
- compute the filtered view the UI shows while a search or a filter is active.

Modules, one per concern of the source:

| module | file | what it holds |
|---|---|---|
| `Seqs` | `seqs.dfy` | `Array.prototype.filter` on sequences, and order-preserving subsequences |
| `Text` | `text.dfy` | `toLowerCase`, `trim` (ECMAScript white space and line terminators), `includes` |
| `TaskTypes` | `task_types.dfy` | `Task`, `Column`, `ChecklistItem`, labels, priorities, the draft createTask completes, and `Partial<Task>` updates with the object spread `{ ...t, ...u }` |
| `CoverStore` | `cover_store.dfy` | the cover-image store as a map from task id to data URL, `saveCoverImage` and `getCoverImage` |
| `Progress` | `progress.dfy` | `getChecklistProgress` |
| `BoardFilter` | `filter.dfy` | `matchDateQuery`, `isFiltering`, `filteredColumns` |
| `Board` | `board.dfy` | the default columns; the `find` and `findIndex` searches; the task scan the for-loops perform; the board's task multiset, task count and id counts; the two invariants "each task names its column" and "ids are unique" |
| `BoardOps` | `board_ops.dfy` | what createTask, deleteTask, updateTask and moveTask do to the columns, as functions of the board before the call, with what they preserve |
| `TaskManager` | `task_manager.dfy` | class `TaskStore`: the fields `columns`, `snapshot` and `covers`, and the store's operations as methods with the source's loops |
| `Scenarios` | `scenarios.dfy` | operations used one after another: create then search, create then move, and deleting an unknown id |

Each method of `TaskStore` is proved equal to its specification function in `BoardOps`:

- `ensures columns == Moved(old(columns), taskId, newColumnId)`;
- the other methods have the matching clause for their own function.

The same ensures clauses also state:

- when the method saves to local storage;
- what it writes to the cover store.

The properties of the operations are proved as lemmas about those functions.

Behaviour is modelled as the code has it, including behaviour that looks unintended:

- Operations on an unknown task id, and createTask on an unknown column, change nothing. No error is returned or reported.
- Deleting an unknown id is therefore a no-op (`Scenarios.DeleteUnknown`).
- moveTask to a column id the board does not have removes the task from the board and saves nothing (`BoardOps.MovedToMissingColumn`).
- The label filter is exact, case-sensitive string equality on the label's literal (`BoardFilter.LabelFilterCaseSensitive`).
- The due-date filter is string equality on the stored due-date string (app/composables/useTaskManager.ts:197).
- The `assignee` filter option is held but never consulted (`BoardFilter.AssigneeIgnored`).
- A task's `assignee` is one string (app/types/task.ts:6).
- The search text is matched against the title, description, assignee, label, priority and due date (app/composables/useTaskManager.ts:185-190).

## Model

| member | source | states |
|---|---|---|
| Seqs.FilterIsSubsequence | app/composables/useTaskManager.ts:182-200 | `filter` keeps an order-preserving subsequence of its input |
| Seqs.FilterMultiplicity | app/composables/useTaskManager.ts:182-200 | `filter` keeps every occurrence of an element that passes and none of one that fails |
| Seqs.FilterMembers | app/composables/useTaskManager.ts:182-200 | an element is in the filtered sequence iff it is in the input and passes |
| Seqs.Filter | app/composables/useTaskManager.ts:182 | `filter`: no longer than its input, and every kept element passes (order and multiplicities in `Seqs.FilterIsSubsequence` and `Seqs.FilterMultiplicity`) |
| Seqs.FilterCongruent | app/composables/useTaskManager.ts:182-200 | two predicates that agree on the input's elements filter it to the same sequence |
| Text.ToLower | app/composables/useTaskManager.ts:171 | lower-casing keeps the length and maps every character, each upper-case ASCII letter to its lower-case letter |
| Text.TrimStart | app/composables/useTaskManager.ts:171 | the result is the suffix starting at the first non-whitespace character, and everything dropped is whitespace |
| Text.Trim | app/composables/useTaskManager.ts:171 | `trim`: the infix of the input left once the whitespace at both ends is stripped; it neither starts nor ends with whitespace; it is empty iff the input is all whitespace (`Text.TrimEmptyIff`) |
| Text.TrimEnd | app/composables/useTaskManager.ts:171 | the result is the prefix ending at the last non-whitespace character, and everything dropped is whitespace |
| Text.TrimEmptyIff | app/composables/useTaskManager.ts:164 | a string trims to `""` iff every character is whitespace |
| Text.ToLowerWhitespace | app/composables/useTaskManager.ts:164 | lower-casing neither adds nor removes whitespace |
| Text.ToLowerIdempotent | app/composables/useTaskManager.ts:171 | lower-casing twice is lower-casing once |
| Text.ContainsIff | app/composables/useTaskManager.ts:185-190 | `includes` holds iff the query occurs at some position |
| Text.ContainsAt | app/composables/useTaskManager.ts:185-190 | an occurrence at any position is found |
| Text.Contains | app/composables/useTaskManager.ts:185-190 | `includes`, as a left-to-right scan of start positions; its meaning, an occurrence at some position, is `Text.ContainsIff` |
| Text.EmptyIncluded | app/composables/useTaskManager.ts:184 | every string includes the empty query |
| TaskTypes.NewTask | app/composables/useTaskManager.ts:47-52 | the task createTask builds: the draft's fields, the given id and timestamp, and the empty cover `""` (a definition; it has no contract of its own) |
| TaskTypes.Merge | app/composables/useTaskManager.ts:73 | the spread `{ ...t, ...u }`: each field `u` gives overrides that of `t` (a definition; its properties are `TaskTypes.MergeNoChanges`, `TaskTypes.MergeIdempotent`, `TaskTypes.MergeCombine` and `BoardOps.UpdatedFields`) |
| TaskTypes.MergeNoChanges | app/composables/useTaskManager.ts:73 | spreading an update that gives no field leaves the task as it was |
| TaskTypes.MergeIdempotent | app/composables/useTaskManager.ts:73 | applying the same update twice equals applying it once |
| TaskTypes.MergeCombine | app/composables/useTaskManager.ts:73 | two successive updates act as one update in which the later update's fields win |
| CoverStore.Write | app/composables/useIndexedDB.ts:20-52 | a file's data URL is stored under the task id, `null` deletes the key, and every other key keeps its entry |
| CoverStore.Read | app/composables/useIndexedDB.ts:54-65 | `getCoverImage`: a data URL exactly when the key is stored, and then the stored one; `null` for a missing key |
| CoverStore.ReadAfterWrite | app/composables/useIndexedDB.ts:54-65 | reading a key back after writing it gives the data URL written, or `null` after a delete |
| CoverStore.WriteOther | app/composables/useIndexedDB.ts:20-52 | a write leaves other tasks' covers unchanged |
| CoverStore.DeleteAbsent | app/composables/useIndexedDB.ts:42-51 | deleting a cover that is not stored leaves the store unchanged (no error) |
| CoverStore.WriteIdempotent | app/composables/useIndexedDB.ts:20-52 | writing the same cover twice equals writing it once |
| Progress.DoneCount | app/composables/useTaskManager.ts:97 | at most every item is done |
| Progress.RoundHalfUp | app/composables/useTaskManager.ts:98 | `Math.round` of a non-negative fraction: the result is the nearest integer, with halves rounded up |
| Progress.PercentAtMost100 | app/composables/useTaskManager.ts:98 | the rounded percentage of done items is never above 100 |
| Progress.ChecklistProgress | app/composables/useTaskManager.ts:95-99 | 0 for an empty checklist; otherwise 100·done/length rounded to the nearest integer; never above 100 |
| Progress.AllDone | app/composables/useTaskManager.ts:95-99 | a non-empty checklist with every item done is at 100 |
| Progress.NoneDone | app/composables/useTaskManager.ts:95-99 | a checklist with no item done is at 0 |
| Progress.NothingKept | app/composables/useTaskManager.ts:97 | with no item done, the done count is 0 |
| Progress.AlmostDoneRoundsUp | app/composables/useTaskManager.ts:98 | 199 done items out of 200 already show 100 |
| Progress.Examples | app/composables/useTaskManager.ts:95-99 | `[]` is at 0, `[done]` at 100, `[done, open]` at 50 |
| BoardFilter.NormalizedQuery | app/composables/useTaskManager.ts:171 | the query `searchQuery.toLowerCase().trim()` (a definition; `BoardFilter.IsFilteringIff` says when it is empty) |
| BoardFilter.IsFiltering | app/composables/useTaskManager.ts:162-168 | `isFiltering` (a definition; its meaning in terms of the raw search text is `BoardFilter.IsFilteringIff`) |
| BoardFilter.MatchDateQuery | app/composables/useTaskManager.ts:130-160 | `matchDateQuery`: false for an empty date or one whose formatting throws; otherwise whether some lower-cased variant includes the query (a definition; `BoardFilter.NoDateNoDateMatch` states the empty-date case) |
| BoardFilter.MatchesSearch | app/composables/useTaskManager.ts:183-190 | the search part of the filter: an empty query, or the lower-cased title, description, assignee, label or priority includes the query, or the due date matches it (a definition, used by `BoardFilter.FilteredMembers`) |
| BoardFilter.MatchesLabel | app/composables/useTaskManager.ts:192-193 | no label filter, or the label's literal equals it (a definition, used by `BoardFilter.FilteredMembers` and `BoardFilter.LabelFilterExact`) |
| BoardFilter.MatchesDueDate | app/composables/useTaskManager.ts:195-197 | no due-date filter, or the due date equals it as a string (a definition, used by `BoardFilter.FilteredMembers`) |
| BoardFilter.IsFilteringIff | app/composables/useTaskManager.ts:162-168 | the view is filtered iff the search text has a non-whitespace character, or a label filter is set, or a due-date filter is set; the assignee option plays no part |
| BoardFilter.FilteredColumns | app/composables/useTaskManager.ts:170-202 | without a filter the view is the board itself; with one, the view has the same columns in the same order, with the same ids and titles |
| BoardFilter.FilteredSubsequence | app/composables/useTaskManager.ts:180-201 | each visible column's tasks are an order-preserving subsequence of that column's tasks |
| BoardFilter.FilteredMembers | app/composables/useTaskManager.ts:182-200 | while filtering, a task is shown in a column iff it is in that column and matches the search, the label filter and the due-date filter; it is shown as many times as it occurs there |
| BoardFilter.AssigneeIgnored | app/composables/useTaskManager.ts:192-199 | changing the assignee filter option never changes the view |
| BoardFilter.LabelFilterExact | app/composables/useTaskManager.ts:192-193 | with a label filter set, every shown task's label is exactly the filter string |
| BoardFilter.LabelFilterCaseSensitive | app/composables/useTaskManager.ts:192-193 | the label filter `"bug"` shows no task labelled `Bug` |
| BoardFilter.NoDateNoDateMatch | app/composables/useTaskManager.ts:131 | an empty due date never matches a date query |
| Board.DefaultColumns | app/composables/useTaskManager.ts:7-13 | the store starts with five empty columns |
| Board.DefaultColumnsEmpty | app/composables/useTaskManager.ts:7-13 | the starting board holds no task, so every task names its column and ids are unique there |
| Board.FindColumn | app/composables/useTaskManager.ts:54 | `find` on column ids: the index of the first column with the id, or none when no column has it |
| Board.FindTask | app/composables/useTaskManager.ts:71 | `findIndex` on task ids: the first index with the id, or -1 when no task has it |
| Board.LocateFrom | app/composables/useTaskManager.ts:106-115 | the scan from column `k` on: the first column whose `findIndex` succeeds, and that index; none when every remaining column fails |
| Board.Locate | app/composables/useTaskManager.ts:70-72 | the scan of updateTask, deleteTask and moveTask over the whole board, `Board.LocateFrom` from column 0 (a definition; its contract is `Board.LocateIff`) |
| Board.LocateIff | app/composables/useTaskManager.ts:70-72 | the scan finds a task iff the board holds a task with the id, and what it finds is the first such task in column order |
| Board.WithTasksMultiset | app/composables/useTaskManager.ts:88 | replacing one column's tasks replaces exactly those tasks in the board's multiset of tasks |
| Board.HasTaskIff | app/composables/useTaskManager.ts:70-72 | the board holds a task with an id iff that id occurs among its tasks |
| BoardOps.RemoveAt | app/composables/useTaskManager.ts:88 | `splice(i, 1)` removes exactly the task at `i` |
| BoardOps.Created | app/composables/useTaskManager.ts:54-56 | createTask's board; it keeps the columns' ids, titles and order (its content is `BoardOps.CreatedAppends` and `BoardOps.CreatedTasks`) |
| BoardOps.CreatedAppends | app/composables/useTaskManager.ts:54-56 | the new task is pushed onto the end of the first column with its `columnId`, and every other column is unchanged; without such a column nothing changes |
| BoardOps.CreatedTasks | app/composables/useTaskManager.ts:54-56 | exactly the new task is added to the board's tasks when its column exists, none otherwise |
| BoardOps.CreatedContained | app/composables/useTaskManager.ts:54-56 | creation keeps every task in the column its `columnId` names |
| BoardOps.CreatedUnique | app/composables/useTaskManager.ts:47-56 | creating a task with a fresh id keeps ids unique |
| BoardOps.Deleted | app/composables/useTaskManager.ts:84-93 | deleteTask's board; it keeps the columns' ids, titles and order (its content is `BoardOps.DeletedTasks`) |
| BoardOps.DeletedTasks | app/composables/useTaskManager.ts:84-93 | exactly the first task with the id leaves the board; its column is the old one with that task spliced out, so it keeps the other tasks in order; the other columns are unchanged; an unknown id changes nothing |
| BoardOps.DeletedContained | app/composables/useTaskManager.ts:84-93 | deletion keeps every task in the column it names |
| BoardOps.DeletedUnique | app/composables/useTaskManager.ts:84-93 | with unique ids, deletion keeps them unique and leaves no task with the deleted id |
| BoardOps.UpdatedTask | app/composables/useTaskManager.ts:73-77 | the task updateTask leaves: the spread when no cover-file argument is given; otherwise the spread in every field but the cover, which is what reading the cover store back after the write gives |
| BoardOps.Updated | app/composables/useTaskManager.ts:70-79 | updateTask's board; it keeps the columns' ids, titles and order (its content is `BoardOps.UpdatedInPlace`) |
| BoardOps.UpdatedInPlace | app/composables/useTaskManager.ts:70-79 | only the first task with the id is replaced, at its own position, by the merged task; every other task and every column's length are unchanged |
| BoardOps.UpdatedFields | app/composables/useTaskManager.ts:73-77 | each of the twelve fields the update does not give is kept (the cover only when no cover-file argument was given); after a cover-file argument the cover is the data URL written, or none after `null` |
| BoardOps.UpdatedContainedIff | app/composables/useTaskManager.ts:73 | for a task on a board whose tasks all name their column, the board keeps that property iff the update gives no `columnId` or gives the id of the column holding the task |
| BoardOps.UpdatedUnique | app/composables/useTaskManager.ts:73 | ids stay unique when the update gives no `id`, gives the task's own id, or gives an id not on the board |
| BoardOps.Relabelled | app/composables/useTaskManager.ts:124 | `{ ...taskToMove, columnId: newColumnId }`: the copy names the target and differs from the task in no other field |
| BoardOps.Moved | app/composables/useTaskManager.ts:101-128 | moveTask's board; it keeps the columns' ids, titles and order (its content is `BoardOps.MovedToTarget`, `BoardOps.MovedToTargetTasks` and `BoardOps.MovedToMissingColumn`) |
| BoardOps.MovedToTarget | app/composables/useTaskManager.ts:117-126 | with an existing target, the target column is its earlier tasks, in order, followed by the copy naming the target; the source column is the old one with the task spliced out (for a move within one column: the spliced column followed by the copy); every other column is unchanged |
| BoardOps.MovedToTargetTasks | app/composables/useTaskManager.ts:117-126 | with an existing target, the board's tasks are the same except that the task is replaced by its relabelled copy; the task count is unchanged |
| BoardOps.MovedToMissingColumn | app/composables/useTaskManager.ts:117-127 | with no target column, a move is a deletion: the task leaves the board, which then has one task fewer |
| BoardOps.MovedContained | app/composables/useTaskManager.ts:124 | moving keeps every task in the column it names |
| BoardOps.MovedUnique | app/composables/useTaskManager.ts:101-128 | moving keeps ids unique |
| TaskManager.TaskStore.constructor | app/composables/useTaskManager.ts:7-31 | the store starts from the default columns, and from the saved board when there is one |
| TaskManager.TaskStore.LoadFromStorage | app/composables/useTaskManager.ts:23-31 | saved columns replace the board; with nothing saved the board is kept |
| TaskManager.TaskStore.SaveToStorage | app/composables/useTaskManager.ts:33-42 | the saved copy becomes the current board, and nothing else changes |
| TaskManager.TaskStore.CreateTask | app/composables/useTaskManager.ts:44-64 | the board becomes `Created`; the saved copy holds the task with an empty cover; a cover file is written, and the task's cover then becomes its data URL; with no such column nothing changes; both invariants are kept, uniqueness for a fresh id |
| TaskManager.TaskStore.UpdateTask | app/composables/useTaskManager.ts:66-82 | the board becomes `Updated`; for a found task, the board is saved and a cover-file argument is written to the cover store; an unknown id changes nothing |
| TaskManager.TaskStore.DeleteTask | app/composables/useTaskManager.ts:84-93 | the board becomes `Deleted`; it is saved only when the task was found; the cover store is untouched |
| TaskManager.TaskStore.MoveTask | app/composables/useTaskManager.ts:101-128 | the board becomes `Moved`; it is saved only when both the task and the target column were found; the cover store is untouched |
| TaskManager.SaveThenLoad | app/composables/useTaskManager.ts:23-42 | loading right after saving gives back the board that was saved, and the cover store is untouched |
| Scenarios.LocateCreated | app/composables/useTaskManager.ts:54-56 | a task with a fresh id, once created, is the task the scan finds under its id: the last task of its column |
| Scenarios.CreatedFoundBySearch | app/composables/useTaskManager.ts:170-202 | with no label or due-date filter, a search whose text occurs in a new task's lower-cased title shows that task in its column |
| Scenarios.CreatedThenMoved | app/composables/useTaskManager.ts:101-128 | a task created and then moved to an existing column is that column's last task and names it |
| Scenarios.CreatedThenMovedTasks | app/composables/useTaskManager.ts:101-128 | after that create-then-move, the board holds its earlier tasks plus the moved copy |
| Scenarios.CreatedThenMovedToMissingColumn | app/composables/useTaskManager.ts:122-126 | a task created and then moved to a missing column leaves the board exactly as before the creation |
| Scenarios.DeleteUnknown | app/composables/useTaskManager.ts:84-93 | deleting an id the board does not hold leaves the board unchanged |

## Left out

- Text.ToLower: `toLowerCase` is modelled on ASCII letters only; Unicode case mapping is not modelled.
- Progress.ChecklistProgress: computed in exact rational arithmetic. The source's floating-point `done / length * 100` can differ from this at an exact half.
- The date formatting inside `matchDateQuery` is a parameter, `formats`. That covers `new Date`, the two `id-ID` long-month forms, the short locale form and the `toISOString` calendar date, and `None` stands for a thrown exception. Which variants a given date produces is not modelled.
- Generating the id (`Date.now()` plus a random suffix) and the timestamp (`new Date().toISOString()`) is not modelled. Both are parameters of CreateTask.
- Local storage holds the board itself rather than its JSON text. JSON serialisation is not modelled, nor `JSON.parse` throwing on a malformed entry, nor a saved object without `columns`.
- The `coverFile` property that the spreads copy into stored tasks is not modelled. A `File` serialises as `{}`.
- An update that sets a field to `undefined` explicitly is modelled only for `priority` and `coverImage`, through nested options in `TaskUpdate`. For the other ten fields such an update is not modelled; the spread would copy the `undefined` into the task.
- The default argument `checklist = []` of getChecklistProgress is not a separate case: calling `Progress.ChecklistProgress` on `[]` gives the same 0.
- `process.client` (server-side rendering) is not modelled: the model always runs in the browser.
- Vue reactivity (`ref`, `computed`, `onMounted`) is not modelled; `filteredColumns` is a function of its inputs.
- Asynchrony is not modelled: each `await` completes before anything else runs, so no other operation can interleave with a create or an update.
- Opening IndexedDB, the `FileReader` and the transactions are not modelled, and every cover write is taken to succeed. A rejected write is not modelled. In updateTask (app/composables/useTaskManager.ts:75) such a rejection would skip the save at line 78, so the merged task would stay in memory unsaved; in createTask (line 60) the board is already saved and only the cover read-back is skipped.
- Failed cover reads are not modelled: `CoverStore.Read` fails only for a missing key. In the source, a read whose request errors resolves `null` (app/composables/useIndexedDB.ts:63). createTask (app/composables/useTaskManager.ts:61) and updateTask (line 76) would then set the task's cover to `null` although the cover is stored.
- The toast notifications, the Vue Query plugin and the Nuxt configuration are not part of this model.
- TaskManager.TaskStore.DeleteTask: invariant preservation is stated on `BoardOps.Deleted` (`BoardOps.DeletedContained`, `BoardOps.DeletedUnique`). The method's ensures state `columns == Deleted(old(columns), taskId)` and do not repeat it.
- TaskManager.TaskStore.MoveTask: invariant preservation is stated on `BoardOps.Moved` (`BoardOps.MovedContained`, `BoardOps.MovedUnique`). The method's ensures state `columns == Moved(...)` and do not repeat it.
