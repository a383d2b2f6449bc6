/** Properties of the store's operations used one after another, as a user of
    the board does: a task just created is found by a search for text in its
    title, can be moved to another column, is lost by a move to a column that
    does not exist, and deleting an id the board does not hold changes nothing. */
module Scenarios {
  import opened TaskTypes
  import opened Text
  import opened Board
  import opened BoardOps
  import opened BoardFilter

  /** A task with a fresh id, once created, is the first (and only) task the
      scan finds under its id: the last task of its column. */
  lemma LocateCreated(columns: seq<Column>, t: Task)
    requires FindColumn(columns, t.columnId).Some? && !HasTask(columns, t.id)
    ensures var c := FindColumn(columns, t.columnId).value;
      Locate(Created(columns, t), t.id) == Some(Position(c, |columns[c].tasks|))
  {
    var c := FindColumn(columns, t.columnId).value;
    var created := Created(columns, t);
    assert created[c].tasks == columns[c].tasks + [t];
    assert created[c].tasks[|columns[c].tasks|] == t;
    LocateIff(created, t.id);
  }

  /** With no label and no due-date filter, a search whose text occurs in the
      lower-cased title of a task just created shows that task in its column. */
  lemma CreatedFoundBySearch(columns: seq<Column>, t: Task, searchQuery: string,
                             options: FilterOptions, formats: DateFormats)
    requires FindColumn(columns, t.columnId).Some?
    requires options.labelName == [] && options.dueDate == []
    requires Contains(ToLower(t.title), NormalizedQuery(searchQuery))
    ensures var c := FindColumn(columns, t.columnId).value;
      t in FilteredColumns(Created(columns, t), searchQuery, options, formats)[c].tasks
  {
    var c := FindColumn(columns, t.columnId).value;
    var created := Created(columns, t);
    assert created[c].tasks == columns[c].tasks + [t];
    assert t in created[c].tasks;
    if IsFiltering(searchQuery, options) {
      FilteredMembers(created, searchQuery, options, formats, c, t);
    }
  }

  /** A task with a fresh id, created and then moved to an existing column,
      is the last task of that column, naming it. */
  lemma CreatedThenMoved(columns: seq<Column>, t: Task, target: string)
    requires FindColumn(columns, t.columnId).Some? && !HasTask(columns, t.id)
    requires FindColumn(columns, target).Some?
    ensures var c := FindColumn(columns, target).value;
      var r := Moved(Created(columns, t), t.id, target);
      |r[c].tasks| > 0 && r[c].tasks[|r[c].tasks| - 1] == t.(columnId := target)
  {
    var created := Created(columns, t);
    LocateCreated(columns, t);
    FindColumnSameColumns(created, columns, target);
    MovedToTarget(created, t.id, target);
  }

  /** After that move the board holds the tasks it held before the task was
      created, plus the moved copy. */
  lemma CreatedThenMovedTasks(columns: seq<Column>, t: Task, target: string)
    requires FindColumn(columns, t.columnId).Some? && !HasTask(columns, t.id)
    requires FindColumn(columns, target).Some?
    ensures multiset(AllTasks(Moved(Created(columns, t), t.id, target))) ==
            multiset(AllTasks(columns)) + multiset{t.(columnId := target)}
  {
    var created := Created(columns, t);
    var t' := t.(columnId := target);
    var r := Moved(created, t.id, target);
    LocateCreated(columns, t);
    FindColumnSameColumns(created, columns, target);
    assert multiset(AllTasks(r)) + multiset{t} == multiset(AllTasks(created)) + multiset{t'} by {
      MovedToTargetTasks(created, t.id, target);
    }
    assert multiset(AllTasks(created)) == multiset(AllTasks(columns)) + multiset{t} by {
      CreatedTasks(columns, t);
    }
    Cancel(multiset(AllTasks(r)), multiset{t}, multiset(AllTasks(columns)) + multiset{t'},
           multiset{t}, multiset{});
  }

  /** A task with a fresh id, created and then moved to a column id the board
      does not have, is gone, and the board is exactly as before it was created. */
  lemma CreatedThenMovedToMissingColumn(columns: seq<Column>, t: Task, target: string)
    requires FindColumn(columns, t.columnId).Some? && !HasTask(columns, t.id)
    requires FindColumn(columns, target).None?
    ensures Moved(Created(columns, t), t.id, target) == columns
  {
    var c := FindColumn(columns, t.columnId).value;
    var created := Created(columns, t);
    LocateCreated(columns, t);
    FindColumnSameColumns(created, columns, target);
    MovedAt(created, t.id, target, Position(c, |columns[c].tasks|));
    var removed := WithTasks(created, c, RemoveAt(created[c].tasks, |columns[c].tasks|));
    assert created[c].tasks == columns[c].tasks + [t];
    assert RemoveAt(created[c].tasks, |columns[c].tasks|) == columns[c].tasks;
    assert removed == columns;
  }

  /** Deleting an id that is not on the board leaves it as it was. */
  lemma DeleteUnknown(columns: seq<Column>, id: string)
    requires !HasTask(columns, id)
    ensures Deleted(columns, id) == columns
  {
    LocateIff(columns, id);
  }
}
