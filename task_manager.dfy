/** The task store of app/composables/useTaskManager.ts: the board held in
    memory, its saved copy in local storage and the cover-image store, with
    the operations that change them. */
module TaskManager {
  import opened TaskTypes
  import opened Board
  import opened BoardOps
  import CoverStore

  class TaskStore {
    /** `columns.value`: the board in memory. */
    var columns: seq<Column>
    /** The `"task-board"` entry of local storage: the columns last saved, or
        `None` when nothing was ever saved. */
    var snapshot: Option<seq<Column>>
    /** The cover-image store, keyed by task id. */
    var covers: CoverStore.Store

    /** The store as a page finds it: module initialisation with the five
        default columns, then `loadFromStorage` when the page mounts. */
    constructor (stored: Option<seq<Column>>, storedCovers: CoverStore.Store)
      ensures columns == if stored.Some? then stored.value else DefaultColumns()
      ensures snapshot == stored && covers == storedCovers
    {
      columns := DefaultColumns();
      snapshot := stored;
      covers := storedCovers;
      new;
      LoadFromStorage();
    }

    /** `loadFromStorage`: saved columns, when there are any, replace the board. */
    method LoadFromStorage()
      modifies this
      ensures columns == if old(snapshot).Some? then old(snapshot).value else old(columns)
      ensures snapshot == old(snapshot) && covers == old(covers)
    {
      if snapshot.Some? {
        columns := snapshot.value;
      }
    }

    /** `saveToStorage`: the saved copy becomes the board as it is now. */
    method SaveToStorage()
      modifies this
      ensures snapshot == Some(columns)
      ensures columns == old(columns) && covers == old(covers)
    {
      snapshot := Some(columns);
    }

    /** `createTask`: the new task (with the given id and timestamp and an empty
        cover) is pushed onto the column its `columnId` names and the board is
        saved; a cover file is then written to the cover store and the task's
        cover set to what reading it back yields, after the save, so the saved
        copy keeps the empty cover. Without such a column nothing changes. */
    method CreateTask(draft: TaskDraft, id: string, createdAt: string, coverFile: CoverFile)
      modifies this
      ensures var t := NewTask(draft, id, createdAt);
        FindColumn(old(columns), draft.columnId).None? ==>
          columns == old(columns) && snapshot == old(snapshot) && covers == old(covers)
      ensures var t := NewTask(draft, id, createdAt);
        FindColumn(old(columns), draft.columnId).Some? ==>
          snapshot == Some(Created(old(columns), t)) &&
          if coverFile.File? then
            covers == CoverStore.Write(old(covers), id, Some(coverFile.dataUrl)) &&
            columns == Created(old(columns), t.(coverImage := Some(coverFile.dataUrl)))
          else
            covers == old(covers) && columns == Created(old(columns), t)
      ensures Contained(old(columns)) ==> Contained(columns)
      ensures UniqueIds(old(columns)) && !HasTask(old(columns), id) ==> UniqueIds(columns)
    {
      ghost var before := columns;
      var newTask := NewTask(draft, id, createdAt);
      var column := FindColumn(columns, draft.columnId);
      if column.Some? {
        var c := column.value;
        columns := WithTasks(columns, c, columns[c].tasks + [newTask]);
        SaveToStorage();
        if coverFile.File? {
          covers := CoverStore.Write(covers, id, Some(coverFile.dataUrl));
          var image := CoverStore.Read(covers, id);
          CoverStore.ReadAfterWrite(old(covers), id, Some(coverFile.dataUrl));
          var last := |columns[c].tasks| - 1;
          columns := WithTasks(columns, c, columns[c].tasks[last := columns[c].tasks[last].(coverImage := image)]);
          assert columns[c].tasks == before[c].tasks + [newTask.(coverImage := image)];
        }
      }
      ghost var added := if coverFile.File? && column.Some? then newTask.(coverImage := Some(coverFile.dataUrl)) else newTask;
      assert columns == Created(before, added);
      if Contained(before) {
        CreatedContained(before, added);
      }
      if UniqueIds(before) && !HasTask(before, id) {
        CreatedUnique(before, added);
      }
    }

    /** `updateTask`: the first task with the id, scanning the columns in order,
        is replaced in place by `{ ...task, ...updates }`; a cover file argument
        (a file or `null`) is written to the cover store under `taskId` and the
        task's cover set from reading it back; then the board is saved. An
        unknown id changes nothing. */
    method UpdateTask(taskId: string, updates: TaskUpdate, coverFile: CoverFile)
      modifies this
      ensures columns == Updated(old(columns), taskId, updates, coverFile)
      ensures Locate(old(columns), taskId).None? ==> snapshot == old(snapshot) && covers == old(covers)
      ensures Locate(old(columns), taskId).Some? ==>
        snapshot == Some(columns) &&
        covers == if coverFile.NoFile? then old(covers)
                  else CoverStore.Write(old(covers), taskId, CoverStore.Payload(coverFile))
    {
      var k := 0;
      while k < |columns|
        invariant 0 <= k <= |columns|
        invariant columns == old(columns) && snapshot == old(snapshot) && covers == old(covers)
        invariant Locate(columns, taskId) == LocateFrom(columns, taskId, k)
      {
        var i := FindTask(columns[k].tasks, taskId);
        if i != -1 {
          ghost var tasks := columns[k].tasks;
          assert Locate(old(columns), taskId) == Some(Position(k, i));
          columns := WithTasks(columns, k, columns[k].tasks[i := Merge(columns[k].tasks[i], updates)]);
          if !coverFile.NoFile? {
            covers := CoverStore.Write(covers, taskId, CoverStore.Payload(coverFile));
            var image := CoverStore.Read(covers, taskId);
            CoverStore.ReadAfterWrite(old(covers), taskId, CoverStore.Payload(coverFile));
            columns := WithTasks(columns, k, columns[k].tasks[i := columns[k].tasks[i].(coverImage := image)]);
          }
          assert columns[k].tasks == tasks[i := UpdatedTask(tasks[i], updates, coverFile)];
          assert columns == WithTasks(old(columns), k, tasks[i := UpdatedTask(tasks[i], updates, coverFile)]);
          SaveToStorage();
          return;
        }
        k := k + 1;
      }
    }

    /** `deleteTask`: the first task with the id is spliced out of its column
        and the board is saved; an unknown id changes nothing and saves nothing.
        The task's cover stays in the cover store. */
    method DeleteTask(taskId: string)
      modifies this
      ensures columns == Deleted(old(columns), taskId)
      ensures snapshot == if Locate(old(columns), taskId).Some? then Some(columns) else old(snapshot)
      ensures covers == old(covers)
    {
      var k := 0;
      while k < |columns|
        invariant 0 <= k <= |columns|
        invariant columns == old(columns) && snapshot == old(snapshot) && covers == old(covers)
        invariant Locate(columns, taskId) == LocateFrom(columns, taskId, k)
      {
        var i := FindTask(columns[k].tasks, taskId);
        if i != -1 {
          columns := WithTasks(columns, k, RemoveAt(columns[k].tasks, i));
          SaveToStorage();
          return;
        }
        k := k + 1;
      }
    }

    /** `moveTask`: the first task with the id is spliced out of its column;
        when a column with id `newColumnId` exists, a copy with that `columnId`
        is pushed onto its end and the board is saved. With no such column the
        task is gone from the board and nothing is saved. An unknown task id
        changes nothing. */
    method MoveTask(taskId: string, newColumnId: string)
      modifies this
      ensures columns == Moved(old(columns), taskId, newColumnId)
      ensures snapshot == if Locate(old(columns), taskId).Some? && FindColumn(old(columns), newColumnId).Some?
                          then Some(columns) else old(snapshot)
      ensures covers == old(covers)
    {
      ghost var before := columns;
      var taskToMove: Option<Task> := None;
      var sourceColumnIndex := -1;
      var taskIndex := -1;
      var i := 0;
      while i < |columns|
        invariant 0 <= i <= |columns|
        invariant columns == old(columns) && snapshot == old(snapshot) && covers == old(covers)
        invariant taskToMove.None? && sourceColumnIndex == -1
        invariant Locate(columns, taskId) == LocateFrom(columns, taskId, i)
      {
        var idx := FindTask(columns[i].tasks, taskId);
        if idx != -1 {
          taskToMove := Some(columns[i].tasks[idx]);
          sourceColumnIndex := i;
          taskIndex := idx;
          break;
        }
        i := i + 1;
      }

      if taskToMove.Some? && sourceColumnIndex != -1 {
        ghost var p := Position(sourceColumnIndex, taskIndex);
        assert Locate(before, taskId) == Some(p);
        MovedAt(before, taskId, newColumnId, p);
        columns := WithTasks(columns, sourceColumnIndex, RemoveAt(columns[sourceColumnIndex].tasks, taskIndex));
        FindColumnSameColumns(columns, before, newColumnId);
        var targetColumn := FindColumn(columns, newColumnId);
        if targetColumn.Some? {
          var c := targetColumn.value;
          columns := WithTasks(columns, c, columns[c].tasks + [Relabelled(taskToMove.value, newColumnId)]);
          SaveToStorage();
        }
      } else {
        assert Locate(before, taskId).None?;
      }
    }
  }

  /** Saving and then loading gives back the board that was saved. */
  method SaveThenLoad(store: TaskStore)
    modifies store
    ensures store.columns == old(store.columns) && store.snapshot == Some(store.columns)
    ensures store.covers == old(store.covers)
  {
    store.SaveToStorage();
    store.LoadFromStorage();
  }
}
