/** The board's records (app/types/task.ts) and the two ways the store builds a
    task from caller input: a draft completed with an id and a timestamp
    (createTask) and a partial update spread over an existing task (updateTask). */
module TaskTypes {

  /** An optional value; `None` stands for JavaScript's `undefined` or `null`. */
  datatype Option<T> = None | Some(value: T)

  datatype Label = Feature | Bug | Issue | Undefined

  datatype Priority = Low | Medium | High

  /** The string each label literal has at run time. */
  function LabelName(l: Label): string {
    match l
    case Feature => "Feature"
    case Bug => "Bug"
    case Issue => "Issue"
    case Undefined => "Undefined"
  }

  function PriorityName(p: Priority): string {
    match p
    case Low => "Low"
    case Medium => "Medium"
    case High => "High"
  }

  datatype ChecklistItem = ChecklistItem(id: string, text: string, done: bool)

  datatype Task = Task(
    id: string,
    title: string,
    description: string,
    assignee: string,
    dueDate: string,
    taskLabel: Label,
    priority: Option<Priority>,
    checklist: seq<ChecklistItem>,
    attachments: seq<string>,
    coverImage: Option<string>,
    columnId: string,
    createdAt: string)

  datatype Column = Column(id: string, title: string, tasks: seq<Task>)

  /** What the caller of createTask supplies: every task field except `id` and
      `createdAt` (and `coverImage`, which createTask always overwrites). */
  datatype TaskDraft = TaskDraft(
    title: string,
    description: string,
    assignee: string,
    dueDate: string,
    taskLabel: Label,
    priority: Option<Priority>,
    checklist: seq<ChecklistItem>,
    attachments: seq<string>,
    columnId: string)

  /** The `coverFile` argument: `undefined` (not given), `null` (remove the cover)
      or a file, represented by the data URL that reading it produces. */
  datatype CoverFile = NoFile | NullFile | File(dataUrl: string)

  /** `{ ...task, id, createdAt, coverImage: "" }`: the task createTask builds. */
  function NewTask(d: TaskDraft, id: string, createdAt: string): Task {
    Task(id, d.title, d.description, d.assignee, d.dueDate, d.taskLabel, d.priority,
         d.checklist, d.attachments, Some(""), d.columnId, createdAt)
  }

  /** A `Partial<Task>`: each field is either absent (`None`) or given a new
      value. The two optional task fields can be given `undefined` explicitly,
      hence the nested options. */
  datatype TaskUpdate = TaskUpdate(
    id: Option<string>,
    title: Option<string>,
    description: Option<string>,
    assignee: Option<string>,
    dueDate: Option<string>,
    taskLabel: Option<Label>,
    priority: Option<Option<Priority>>,
    checklist: Option<seq<ChecklistItem>>,
    attachments: Option<seq<string>>,
    coverImage: Option<Option<string>>,
    columnId: Option<string>,
    createdAt: Option<string>)

  /** The update that gives no field. */
  function NoChanges(): TaskUpdate {
    TaskUpdate(None, None, None, None, None, None, None, None, None, None, None, None)
  }

  function Pick<T>(given: Option<T>, current: T): T {
    if given.Some? then given.value else current
  }

  /** `{ ...t, ...u }`: the fields `u` gives override those of `t`. */
  function Merge(t: Task, u: TaskUpdate): Task {
    Task(Pick(u.id, t.id), Pick(u.title, t.title), Pick(u.description, t.description),
         Pick(u.assignee, t.assignee), Pick(u.dueDate, t.dueDate), Pick(u.taskLabel, t.taskLabel),
         Pick(u.priority, t.priority), Pick(u.checklist, t.checklist),
         Pick(u.attachments, t.attachments), Pick(u.coverImage, t.coverImage),
         Pick(u.columnId, t.columnId), Pick(u.createdAt, t.createdAt))
  }

  /** `{ ...u, ...v }`: a later update overrides an earlier one field by field. */
  function Combine(u: TaskUpdate, v: TaskUpdate): TaskUpdate {
    TaskUpdate(
      if v.id.Some? then v.id else u.id,
      if v.title.Some? then v.title else u.title,
      if v.description.Some? then v.description else u.description,
      if v.assignee.Some? then v.assignee else u.assignee,
      if v.dueDate.Some? then v.dueDate else u.dueDate,
      if v.taskLabel.Some? then v.taskLabel else u.taskLabel,
      if v.priority.Some? then v.priority else u.priority,
      if v.checklist.Some? then v.checklist else u.checklist,
      if v.attachments.Some? then v.attachments else u.attachments,
      if v.coverImage.Some? then v.coverImage else u.coverImage,
      if v.columnId.Some? then v.columnId else u.columnId,
      if v.createdAt.Some? then v.createdAt else u.createdAt)
  }

  /** Fields absent from the update are kept: an empty update changes nothing. */
  lemma MergeNoChanges(t: Task)
    ensures Merge(t, NoChanges()) == t
  {
  }

  /** Applying the same update twice is the same as applying it once. */
  lemma MergeIdempotent(t: Task, u: TaskUpdate)
    ensures Merge(Merge(t, u), u) == Merge(t, u)
  {
  }

  /** Two successive updates act as their combination. */
  lemma MergeCombine(t: Task, u: TaskUpdate, v: TaskUpdate)
    ensures Merge(Merge(t, u), v) == Merge(t, Combine(u, v))
  {
  }
}
