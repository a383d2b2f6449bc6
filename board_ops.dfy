/** What createTask, deleteTask, updateTask and moveTask do to the columns, as
    functions of the board before the call, and what they preserve. The store's
    methods (module TaskManager) are proved to change their columns exactly so. */
module BoardOps {
  import opened TaskTypes
  import opened Board
  import CoverStore
  import Seqs

  /** The columns have the same ids and titles, in the same order. */
  predicate SameColumns(a: seq<Column>, b: seq<Column>) {
    |a| == |b| && forall i :: 0 <= i < |a| ==> a[i].id == b[i].id && a[i].title == b[i].title
  }

  /** `find` by column id sees only the ids. */
  lemma {:induction false} FindColumnSameColumns(a: seq<Column>, b: seq<Column>, id: string)
    requires SameColumns(a, b)
    ensures FindColumn(a, id) == FindColumn(b, id)
  {
    if a != [] {
      FindColumnSameColumns(a[1..], b[1..], id);
    }
  }

  /** `tasks.splice(i, 1)`. */
  function RemoveAt(tasks: seq<Task>, i: nat): (r: seq<Task>)
    requires i < |tasks|
    ensures |r| == |tasks| - 1
    ensures multiset(r) + multiset{tasks[i]} == multiset(tasks)
  {
    assert tasks == tasks[..i] + [tasks[i]] + tasks[i + 1..];
    tasks[..i] + tasks[i + 1..]
  }

  lemma RemoveAtCount(tasks: seq<Task>, i: nat, id: string)
    requires i < |tasks|
    ensures CountId(RemoveAt(tasks, i), id) + (if tasks[i].id == id then 1 else 0) == CountId(tasks, id)
  {
    assert tasks == tasks[..i] + [tasks[i]] + tasks[i + 1..];
    CountIdConcat(tasks[..i] + [tasks[i]], tasks[i + 1..], id);
    CountIdConcat(tasks[..i], [tasks[i]], id);
    CountIdConcat(tasks[..i], tasks[i + 1..], id);
    assert [tasks[i]][1..] == [];
  }

  lemma AppendCount(tasks: seq<Task>, t: Task, id: string)
    ensures CountId(tasks + [t], id) == CountId(tasks, id) + (if t.id == id then 1 else 0)
  {
    CountIdConcat(tasks, [t], id);
    assert [t][1..] == [];
  }

  /** Cancelling a common part of two multiset sums. */
  lemma Cancel(a: multiset<Task>, b: multiset<Task>, c: multiset<Task>, d: multiset<Task>, e: multiset<Task>)
    requires a + b == c + d && d + e == b
    ensures a + e == c
  {
    forall x ensures (a + e)[x] == c[x] {
      assert (a + b)[x] == (c + d)[x];
      assert (d + e)[x] == b[x];
    }
  }

  /** Pushing a task onto a column adds exactly that task to the board. */
  lemma AppendedTasks(columns: seq<Column>, c: nat, t: Task)
    requires c < |columns|
    ensures var r := WithTasks(columns, c, columns[c].tasks + [t]);
      multiset(AllTasks(r)) == multiset(AllTasks(columns)) + multiset{t} &&
      TaskCount(r) == TaskCount(columns) + 1
  {
    var ts := columns[c].tasks;
    var r := WithTasks(columns, c, ts + [t]);
    WithTasksMultiset(columns, c, ts + [t]);
    WithTasksCount(columns, c, ts + [t]);
    assert multiset(ts + [t]) == multiset(ts) + multiset{t};
    Cancel(multiset(AllTasks(r)), multiset(ts), multiset(AllTasks(columns)) + multiset{t},
           multiset(ts), multiset{});
  }

  /** Replacing a column's tasks by tasks that all name that column keeps the
      containment invariant. */
  lemma ContainedWithTasks(columns: seq<Column>, c: nat, ts: seq<Task>)
    requires Contained(columns) && c < |columns|
    requires forall j :: 0 <= j < |ts| ==> ts[j].columnId == columns[c].id
    ensures Contained(WithTasks(columns, c, ts))
  {
  }

  // ---------------------------------------------------------------- createTask

  /** createTask's change to the columns: the task is pushed onto the first
      column whose id is the task's `columnId`; without such a column nothing
      changes. */
  function Created(columns: seq<Column>, t: Task): (r: seq<Column>)
    ensures SameColumns(r, columns)
  {
    match FindColumn(columns, t.columnId)
    case None => columns
    case Some(c) => WithTasks(columns, c, columns[c].tasks + [t])
  }

  /** The task lands at the end of its column and nothing else moves. */
  lemma CreatedAppends(columns: seq<Column>, t: Task)
    ensures FindColumn(columns, t.columnId).None? ==> Created(columns, t) == columns
    ensures FindColumn(columns, t.columnId).Some? ==>
      var c := FindColumn(columns, t.columnId).value;
      var r := Created(columns, t);
      r[c].tasks == columns[c].tasks + [t] && r[c].tasks[|r[c].tasks| - 1] == t &&
      forall d :: 0 <= d < |columns| && d != c ==> r[d] == columns[d]
  {
  }

  /** Exactly one task, the new one, is added to the board when its column exists. */
  lemma CreatedTasks(columns: seq<Column>, t: Task)
    ensures var added := if FindColumn(columns, t.columnId).Some? then multiset{t} else multiset{};
      multiset(AllTasks(Created(columns, t))) == multiset(AllTasks(columns)) + added &&
      TaskCount(Created(columns, t)) == TaskCount(columns) + |added|
  {
    if FindColumn(columns, t.columnId).Some? {
      AppendedTasks(columns, FindColumn(columns, t.columnId).value, t);
    }
  }

  /** The new task names the column it is pushed onto. */
  lemma CreatedContained(columns: seq<Column>, t: Task)
    requires Contained(columns)
    ensures Contained(Created(columns, t))
  {
    if FindColumn(columns, t.columnId).Some? {
      var c := FindColumn(columns, t.columnId).value;
      ContainedWithTasks(columns, c, columns[c].tasks + [t]);
    }
  }

  /** A task with a fresh id keeps ids unique. */
  lemma CreatedUnique(columns: seq<Column>, t: Task)
    requires UniqueIds(columns) && !HasTask(columns, t.id)
    ensures UniqueIds(Created(columns, t))
  {
    HasTaskIff(columns, t.id);
    forall id ensures Occurrences(Created(columns, t), id) <= 1 {
      if FindColumn(columns, t.columnId).Some? {
        var c := FindColumn(columns, t.columnId).value;
        WithTasksOccurrences(columns, c, columns[c].tasks + [t], id);
        AppendCount(columns[c].tasks, t, id);
      }
    }
  }

  // ---------------------------------------------------------------- deleteTask

  /** deleteTask's change: the first task with that id (columns scanned in
      order) is spliced out of its column; an unknown id changes nothing. */
  function Deleted(columns: seq<Column>, id: string): (r: seq<Column>)
    ensures SameColumns(r, columns)
  {
    match Locate(columns, id)
    case None => columns
    case Some(p) => WithTasks(columns, p.col, RemoveAt(columns[p.col].tasks, p.index))
  }

  /** Exactly the located task leaves the board; its column keeps the others
      in their order and the other columns are untouched. */
  lemma DeletedTasks(columns: seq<Column>, id: string)
    ensures Locate(columns, id).None? ==> Deleted(columns, id) == columns
    ensures Locate(columns, id).Some? ==>
      var p := Locate(columns, id).value;
      var r := Deleted(columns, id);
      multiset(AllTasks(r)) + multiset{columns[p.col].tasks[p.index]} == multiset(AllTasks(columns)) &&
      TaskCount(r) + 1 == TaskCount(columns) &&
      r[p.col].tasks == columns[p.col].tasks[..p.index] + columns[p.col].tasks[p.index + 1..] &&
      Seqs.IsSubsequence(r[p.col].tasks, columns[p.col].tasks) &&
      (forall d :: 0 <= d < |columns| && d != p.col ==> r[d] == columns[d])
  {
    if Locate(columns, id).Some? {
      var p := Locate(columns, id).value;
      var ts := RemoveAt(columns[p.col].tasks, p.index);
      var r := Deleted(columns, id);
      assert r == WithTasks(columns, p.col, ts);
      assert r[p.col].tasks == ts;
      WithTasksMultiset(columns, p.col, ts);
      WithTasksCount(columns, p.col, ts);
      Cancel(multiset(AllTasks(r)), multiset(columns[p.col].tasks), multiset(AllTasks(columns)),
             multiset(ts), multiset{columns[p.col].tasks[p.index]});
      Seqs.RemoveIsSubsequence(columns[p.col].tasks, p.index);
    }
  }

  lemma DeletedContained(columns: seq<Column>, id: string)
    requires Contained(columns)
    ensures Contained(Deleted(columns, id))
  {
    if Locate(columns, id).Some? {
      var p := Locate(columns, id).value;
      ContainedWithTasks(columns, p.col, RemoveAt(columns[p.col].tasks, p.index));
    }
  }

  /** One occurrence of the id goes; with unique ids, the task is gone. */
  lemma DeletedOccurrences(columns: seq<Column>, id: string, x: string)
    requires Locate(columns, id).Some?
    ensures Occurrences(Deleted(columns, id), x) + (if x == id then 1 else 0) == Occurrences(columns, x)
  {
    var p := Locate(columns, id).value;
    WithTasksOccurrences(columns, p.col, RemoveAt(columns[p.col].tasks, p.index), x);
    RemoveAtCount(columns[p.col].tasks, p.index, x);
  }

  lemma DeletedUnique(columns: seq<Column>, id: string)
    requires UniqueIds(columns)
    ensures UniqueIds(Deleted(columns, id))
    ensures !HasTask(Deleted(columns, id), id)
  {
    if Locate(columns, id).Some? {
      forall x ensures Occurrences(Deleted(columns, id), x) <= 1 {
        DeletedOccurrences(columns, id, x);
      }
      DeletedOccurrences(columns, id, id);
    } else {
      LocateIff(columns, id);
    }
    HasTaskIff(Deleted(columns, id), id);
  }

  // ---------------------------------------------------------------- updateTask

  /** The task updateTask leaves in place of `t`: the spread `{ ...t, ...u }`,
      then, when a cover file argument was given, the cover read back from the
      store after it was written. */
  function UpdatedTask(t: Task, u: TaskUpdate, coverFile: CoverFile): (r: Task)
    ensures coverFile.NoFile? ==> r == Merge(t, u)
    ensures !coverFile.NoFile? ==>
      r.(coverImage := Merge(t, u).coverImage) == Merge(t, u) &&
      r.coverImage == CoverStore.Read(CoverStore.Write(map[], t.id, CoverStore.Payload(coverFile)), t.id)
  {
    var merged := Merge(t, u);
    if coverFile.NoFile? then merged else merged.(coverImage := CoverStore.Payload(coverFile))
  }

  /** updateTask's change: the first task with the id is replaced, at the same
      column and index, by its updated version; an unknown id changes nothing. */
  function Updated(columns: seq<Column>, id: string, u: TaskUpdate, coverFile: CoverFile): (r: seq<Column>)
    ensures SameColumns(r, columns)
  {
    match Locate(columns, id)
    case None => columns
    case Some(p) =>
      var ts := columns[p.col].tasks;
      WithTasks(columns, p.col, ts[p.index := UpdatedTask(ts[p.index], u, coverFile)])
  }

  /** Every other task on the board, at every other position, is as it was. */
  lemma UpdatedInPlace(columns: seq<Column>, id: string, u: TaskUpdate, coverFile: CoverFile)
    ensures Locate(columns, id).None? ==> Updated(columns, id, u, coverFile) == columns
    ensures Locate(columns, id).Some? ==>
      var p := Locate(columns, id).value;
      var r := Updated(columns, id, u, coverFile);
      (forall c :: 0 <= c < |r| ==> |r[c].tasks| == |columns[c].tasks|) &&
      r[p.col].tasks[p.index] == UpdatedTask(columns[p.col].tasks[p.index], u, coverFile) &&
      (forall c, j :: 0 <= c < |r| && 0 <= j < |r[c].tasks| && (c, j) != (p.col, p.index) ==>
         r[c].tasks[j] == columns[c].tasks[j]) &&
      TaskCount(r) == TaskCount(columns)
  {
    if Locate(columns, id).Some? {
      var p := Locate(columns, id).value;
      var ts := columns[p.col].tasks;
      var nts := ts[p.index := UpdatedTask(ts[p.index], u, coverFile)];
      var r := Updated(columns, id, u, coverFile);
      assert r == WithTasks(columns, p.col, nts);
      assert r[p.col].tasks == nts;
      WithTasksCount(columns, p.col, nts);
    }
  }

  /** Fields the update does not give are kept; the cover is the one written
      (the data URL for a file, none after `null`) when a cover file argument
      was given. */
  lemma UpdatedFields(t: Task, u: TaskUpdate, coverFile: CoverFile)
    ensures var r := UpdatedTask(t, u, coverFile);
      (u.title.None? ==> r.title == t.title) &&
      (u.columnId.None? ==> r.columnId == t.columnId) &&
      (u.id.None? ==> r.id == t.id) &&
      (u.createdAt.None? ==> r.createdAt == t.createdAt) &&
      (u.description.None? ==> r.description == t.description) &&
      (u.assignee.None? ==> r.assignee == t.assignee) &&
      (u.dueDate.None? ==> r.dueDate == t.dueDate) &&
      (u.taskLabel.None? ==> r.taskLabel == t.taskLabel) &&
      (u.priority.None? ==> r.priority == t.priority) &&
      (u.checklist.None? ==> r.checklist == t.checklist) &&
      (u.attachments.None? ==> r.attachments == t.attachments) &&
      (coverFile.NoFile? && u.coverImage.None? ==> r.coverImage == t.coverImage) &&
      (coverFile.File? ==> r.coverImage == Some(coverFile.dataUrl)) &&
      (coverFile.NullFile? ==> r.coverImage == None) &&
      (coverFile.NoFile? ==> r == Merge(t, u))
  {
  }

  /** On a board that satisfies the containment invariant, an update of an
      existing task keeps it exactly when it gives no `columnId` or gives the
      id of the column holding the task. */
  lemma UpdatedContainedIff(columns: seq<Column>, id: string, u: TaskUpdate, coverFile: CoverFile)
    requires Contained(columns) && Locate(columns, id).Some?
    ensures Contained(Updated(columns, id, u, coverFile)) <==>
      (u.columnId.None? || u.columnId.value == columns[Locate(columns, id).value.col].id)
  {
    var p := Locate(columns, id).value;
    var ts := columns[p.col].tasks;
    var nt := UpdatedTask(ts[p.index], u, coverFile);
    var r := Updated(columns, id, u, coverFile);
    if u.columnId.None? || u.columnId.value == columns[p.col].id {
      ContainedWithTasks(columns, p.col, ts[p.index := nt]);
    } else {
      assert r[p.col].tasks[p.index] == nt;
      assert nt.columnId != r[p.col].id;
    }
  }

  /** Ids stay unique when the update keeps the id or gives one not on the board. */
  lemma UpdatedUnique(columns: seq<Column>, id: string, u: TaskUpdate, coverFile: CoverFile)
    requires UniqueIds(columns)
    requires u.id.None? || u.id.value == id || !HasTask(columns, u.id.value)
    ensures UniqueIds(Updated(columns, id, u, coverFile))
  {
    if Locate(columns, id).Some? {
      var p := Locate(columns, id).value;
      var ts := columns[p.col].tasks;
      var nt := UpdatedTask(ts[p.index], u, coverFile);
      if u.id.Some? {
        HasTaskIff(columns, u.id.value);
      }
      forall x ensures Occurrences(Updated(columns, id, u, coverFile), x) <= 1 {
        WithTasksOccurrences(columns, p.col, ts[p.index := nt], x);
        RemoveAtCount(ts, p.index, x);
        RemoveAtCount(ts[p.index := nt], p.index, x);
        assert RemoveAt(ts, p.index) == RemoveAt(ts[p.index := nt], p.index);
      }
    }
  }

  // ---------------------------------------------------------------- moveTask

  /** The moved copy: `{ ...taskToMove, columnId: newColumnId }`. */
  function Relabelled(t: Task, target: string): (r: Task)
    ensures r.columnId == target
    ensures r.(columnId := t.columnId) == t
  {
    t.(columnId := target)
  }

  /** moveTask's change: the first task with the id is spliced out of its
      column; then, if a column with the target id exists, a copy naming that
      column is pushed onto it. An unknown task id changes nothing; an unknown
      target column leaves the task removed. */
  function Moved(columns: seq<Column>, id: string, target: string): (r: seq<Column>)
    ensures SameColumns(r, columns)
  {
    match Locate(columns, id)
    case None => columns
    case Some(p) =>
      var t := columns[p.col].tasks[p.index];
      var removed := WithTasks(columns, p.col, RemoveAt(columns[p.col].tasks, p.index));
      FindColumnSameColumns(removed, columns, target);
      match FindColumn(removed, target)
      case None => removed
      case Some(c) => WithTasks(removed, c, removed[c].tasks + [Relabelled(t, target)])
  }

  /** `Moved` once the task has been found at `p`. */
  lemma MovedAt(columns: seq<Column>, id: string, target: string, p: Position)
    requires Locate(columns, id) == Some(p)
    ensures var removed := WithTasks(columns, p.col, RemoveAt(columns[p.col].tasks, p.index));
      var t := columns[p.col].tasks[p.index];
      SameColumns(removed, columns) &&
      (FindColumn(removed, target).None? ==> Moved(columns, id, target) == removed) &&
      (FindColumn(removed, target).Some? ==>
         Moved(columns, id, target) ==
         WithTasks(removed, FindColumn(removed, target).value,
                   removed[FindColumn(removed, target).value].tasks + [Relabelled(t, target)]))
  {
  }

  /** With an existing target, the task's relabelled copy is pushed after the
      target column's earlier tasks, the source column is the old one with the
      task spliced out (when source and target are the same column, the copy
      follows the remaining tasks), and every other column is untouched. */
  lemma MovedToTarget(columns: seq<Column>, id: string, target: string)
    requires Locate(columns, id).Some? && FindColumn(columns, target).Some?
    ensures var p := Locate(columns, id).value;
      var c := FindColumn(columns, target).value;
      var t := columns[p.col].tasks[p.index];
      var r := Moved(columns, id, target);
      |r[c].tasks| > 0 && r[c].tasks[|r[c].tasks| - 1] == Relabelled(t, target) &&
      (c != p.col ==> r[c].tasks == columns[c].tasks + [Relabelled(t, target)] &&
                      r[p.col].tasks == RemoveAt(columns[p.col].tasks, p.index)) &&
      (c == p.col ==> r[c].tasks == RemoveAt(columns[c].tasks, p.index) + [Relabelled(t, target)]) &&
      (forall d :: 0 <= d < |columns| && d != p.col && d != c ==> r[d] == columns[d])
  {
    var p := Locate(columns, id).value;
    MovedAt(columns, id, target, p);
    FindColumnSameColumns(WithTasks(columns, p.col, RemoveAt(columns[p.col].tasks, p.index)), columns, target);
  }

  /** With an existing target, the board's tasks are the same except that the
      task is replaced by its relabelled copy; so the number of tasks does not change. */
  lemma MovedToTargetTasks(columns: seq<Column>, id: string, target: string)
    requires Locate(columns, id).Some? && FindColumn(columns, target).Some?
    ensures var p := Locate(columns, id).value;
      var t := columns[p.col].tasks[p.index];
      var r := Moved(columns, id, target);
      multiset(AllTasks(r)) + multiset{t} == multiset(AllTasks(columns)) + multiset{Relabelled(t, target)} &&
      TaskCount(r) == TaskCount(columns)
  {
    var p := Locate(columns, id).value;
    var t := columns[p.col].tasks[p.index];
    var removed := WithTasks(columns, p.col, RemoveAt(columns[p.col].tasks, p.index));
    MovedAt(columns, id, target, p);
    FindColumnSameColumns(removed, columns, target);
    assert removed == Deleted(columns, id);
    DeletedTasks(columns, id);
    AppendedTasks(removed, FindColumn(columns, target).value, Relabelled(t, target));
  }

  /** With an unknown target the task is lost: it leaves the board and the
      board has one task fewer. */
  lemma MovedToMissingColumn(columns: seq<Column>, id: string, target: string)
    requires Locate(columns, id).Some? && FindColumn(columns, target).None?
    ensures var p := Locate(columns, id).value;
      var r := Moved(columns, id, target);
      r == Deleted(columns, id) &&
      multiset(AllTasks(r)) + multiset{columns[p.col].tasks[p.index]} == multiset(AllTasks(columns)) &&
      TaskCount(r) + 1 == TaskCount(columns)
  {
    var p := Locate(columns, id).value;
    var removed := WithTasks(columns, p.col, RemoveAt(columns[p.col].tasks, p.index));
    FindColumnSameColumns(removed, columns, target);
    DeletedTasks(columns, id);
  }

  /** Moving keeps the containment invariant: the copy names the column it is
      pushed onto. */
  lemma MovedContained(columns: seq<Column>, id: string, target: string)
    requires Contained(columns)
    ensures Contained(Moved(columns, id, target))
  {
    if Locate(columns, id).Some? {
      var p := Locate(columns, id).value;
      var t := columns[p.col].tasks[p.index];
      var removed := WithTasks(columns, p.col, RemoveAt(columns[p.col].tasks, p.index));
      ContainedWithTasks(columns, p.col, RemoveAt(columns[p.col].tasks, p.index));
      FindColumnSameColumns(removed, columns, target);
      if FindColumn(removed, target).Some? {
        var c := FindColumn(removed, target).value;
        ContainedWithTasks(removed, c, removed[c].tasks + [Relabelled(t, target)]);
      }
    }
  }

  /** Moving keeps ids unique. */
  lemma MovedUnique(columns: seq<Column>, id: string, target: string)
    requires UniqueIds(columns)
    ensures UniqueIds(Moved(columns, id, target))
  {
    if Locate(columns, id).Some? {
      var p := Locate(columns, id).value;
      var t := columns[p.col].tasks[p.index];
      var removed := WithTasks(columns, p.col, RemoveAt(columns[p.col].tasks, p.index));
      FindColumnSameColumns(removed, columns, target);
      assert removed == Deleted(columns, id);
      forall x ensures Occurrences(Moved(columns, id, target), x) <= 1 {
        DeletedOccurrences(columns, id, x);
        if FindColumn(removed, target).Some? {
          var c := FindColumn(removed, target).value;
          WithTasksOccurrences(removed, c, removed[c].tasks + [Relabelled(t, target)], x);
          AppendCount(removed[c].tasks, Relabelled(t, target), x);
        }
      }
    }
  }
}
