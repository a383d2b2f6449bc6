/** The board as a value: its columns, the searches the store performs over
    them, and the measures and invariants the operations are proved against. */
module Board {
  import opened TaskTypes

  /** The five workflow columns the store starts with. */
  function DefaultColumns(): (r: seq<Column>)
    ensures |r| == 5
    ensures forall i :: 0 <= i < |r| ==> r[i].tasks == []
  {
    [Column("todo", "To Do", []),
     Column("doing", "Doing", []),
     Column("review", "Review", []),
     Column("done", "Done", []),
     Column("rework", "Rework", [])]
  }

  /** `columns.find((c) => c.id === id)`, as the index of the first column with
      that id. */
  function FindColumn(columns: seq<Column>, id: string): (r: Option<nat>)
    ensures r.Some? ==> r.value < |columns| && columns[r.value].id == id
    ensures r.Some? ==> forall j :: 0 <= j < r.value ==> columns[j].id != id
    ensures r.None? ==> forall j :: 0 <= j < |columns| ==> columns[j].id != id
  {
    if columns == [] then None
    else if columns[0].id == id then Some(0)
    else
      match FindColumn(columns[1..], id)
      case None => None
      case Some(i) => Some(i + 1)
  }

  /** `tasks.findIndex((t) => t.id === id)`: the index of the first task with
      that id, or -1 when there is none. */
  function FindTask(tasks: seq<Task>, id: string): (r: int)
    ensures -1 <= r < |tasks|
    ensures r == -1 ==> forall j :: 0 <= j < |tasks| ==> tasks[j].id != id
    ensures 0 <= r ==> tasks[r].id == id && forall j :: 0 <= j < r ==> tasks[j].id != id
  {
    if tasks == [] then -1
    else if tasks[0].id == id then 0
    else
      var i := FindTask(tasks[1..], id);
      if i == -1 then -1 else i + 1
  }

  /** Where a task sits: the index of its column and its index in that column. */
  datatype Position = Position(col: nat, index: nat)

  predicate ValidPosition(columns: seq<Column>, p: Position) {
    p.col < |columns| && p.index < |columns[p.col].tasks|
  }

  /** The scan `for (const column of columns) { findIndex ...; break }`, from
      column `k` on: the first column holding a task with that id, and the first
      such task in it. */
  function LocateFrom(columns: seq<Column>, id: string, k: nat): (r: Option<Position>)
    requires k <= |columns|
    ensures r.Some? ==> k <= r.value.col && ValidPosition(columns, r.value)
    ensures r.Some? ==> FindTask(columns[r.value.col].tasks, id) == r.value.index
    ensures r.Some? ==> forall c :: k <= c < r.value.col ==> FindTask(columns[c].tasks, id) == -1
    ensures r.None? ==> forall c :: k <= c < |columns| ==> FindTask(columns[c].tasks, id) == -1
    decreases |columns| - k
  {
    if k == |columns| then None
    else
      var i := FindTask(columns[k].tasks, id);
      if i != -1 then Some(Position(k, i)) else LocateFrom(columns, id, k + 1)
  }

  /** The scan over the whole board (its contract is `LocateIff`). */
  function Locate(columns: seq<Column>, id: string): Option<Position> {
    LocateFrom(columns, id, 0)
  }

  /** Some column holds a task with this id. */
  ghost predicate HasTask(columns: seq<Column>, id: string) {
    exists c, j :: 0 <= c < |columns| && 0 <= j < |columns[c].tasks| && columns[c].tasks[j].id == id
  }

  /** The scan finds a task exactly when the board holds one with that id, and
      what it finds is the first one in column order. */
  lemma LocateIff(columns: seq<Column>, id: string)
    ensures Locate(columns, id).Some? <==> HasTask(columns, id)
    ensures Locate(columns, id).Some? ==>
      var p := Locate(columns, id).value;
      columns[p.col].tasks[p.index].id == id &&
      (forall c, j :: 0 <= c < p.col && 0 <= j < |columns[c].tasks| ==> columns[c].tasks[j].id != id) &&
      (forall j :: 0 <= j < p.index ==> columns[p.col].tasks[j].id != id)
  {
    if HasTask(columns, id) {
      var c, j :| 0 <= c < |columns| && 0 <= j < |columns[c].tasks| && columns[c].tasks[j].id == id;
      assert FindTask(columns[c].tasks, id) != -1;
    }
  }

  /** All tasks of the board, column after column. */
  function AllTasks(columns: seq<Column>): seq<Task> {
    if columns == [] then [] else columns[0].tasks + AllTasks(columns[1..])
  }

  function TaskCount(columns: seq<Column>): nat {
    |AllTasks(columns)|
  }

  lemma {:induction false} AllTasksConcat(a: seq<Column>, b: seq<Column>)
    ensures AllTasks(a + b) == AllTasks(a) + AllTasks(b)
  {
    if a == [] {
      assert a + b == b;
    } else {
      assert (a + b)[1..] == a[1..] + b;
      AllTasksConcat(a[1..], b);
    }
  }

  /** A board whose columns are all empty holds no task. */
  lemma {:induction false} NoTasks(columns: seq<Column>)
    requires forall i :: 0 <= i < |columns| ==> columns[i].tasks == []
    ensures AllTasks(columns) == []
  {
    if columns != [] {
      NoTasks(columns[1..]);
    }
  }

  /** The board the store starts with holds no task, so it satisfies both
      invariants. */
  lemma DefaultColumnsEmpty()
    ensures TaskCount(DefaultColumns()) == 0
    ensures Contained(DefaultColumns()) && UniqueIds(DefaultColumns())
  {
    NoTasks(DefaultColumns());
  }

  /** The board's tasks split around column `c`. */
  lemma {:induction false} AllTasksSplit(columns: seq<Column>, c: nat)
    requires c < |columns|
    ensures AllTasks(columns) == AllTasks(columns[..c]) + columns[c].tasks + AllTasks(columns[c + 1..])
  {
    if c == 0 {
      assert columns[..0] == [];
      assert columns[1..] == columns[c + 1..];
    } else {
      var rest := columns[1..];
      AllTasksSplit(rest, c - 1);
      assert columns[..c][1..] == rest[..c - 1];
      assert rest[c..] == columns[c + 1..];
      assert rest[c - 1] == columns[c];
    }
  }

  /** Column `c` with its tasks replaced by `ts`. */
  function WithTasks(columns: seq<Column>, c: nat, ts: seq<Task>): (r: seq<Column>)
    requires c < |columns|
    ensures |r| == |columns|
  {
    columns[c := columns[c].(tasks := ts)]
  }

  /** Replacing one column's tasks replaces exactly those tasks in the board's
      multiset of tasks. */
  lemma WithTasksMultiset(columns: seq<Column>, c: nat, ts: seq<Task>)
    requires c < |columns|
    ensures multiset(AllTasks(WithTasks(columns, c, ts))) + multiset(columns[c].tasks) ==
            multiset(AllTasks(columns)) + multiset(ts)
  {
    var r := WithTasks(columns, c, ts);
    AllTasksSplit(columns, c);
    AllTasksSplit(r, c);
    assert r[..c] == columns[..c];
    assert r[c + 1..] == columns[c + 1..];
  }

  /** Replacing one column's tasks changes the board's task count by the
      difference in that column's length. */
  lemma WithTasksCount(columns: seq<Column>, c: nat, ts: seq<Task>)
    requires c < |columns|
    ensures TaskCount(WithTasks(columns, c, ts)) + |columns[c].tasks| == TaskCount(columns) + |ts|
  {
    var r := WithTasks(columns, c, ts);
    AllTasksSplit(columns, c);
    AllTasksSplit(r, c);
    assert r[..c] == columns[..c];
    assert r[c + 1..] == columns[c + 1..];
  }

  /** Every task's `columnId` is the id of the column that holds it. */
  predicate Contained(columns: seq<Column>) {
    forall c, j :: 0 <= c < |columns| && 0 <= j < |columns[c].tasks| ==>
      columns[c].tasks[j].columnId == columns[c].id
  }

  /** The number of tasks with id `id`. */
  function CountId(tasks: seq<Task>, id: string): nat {
    if tasks == [] then 0 else (if tasks[0].id == id then 1 else 0) + CountId(tasks[1..], id)
  }

  lemma {:induction false} CountIdConcat(a: seq<Task>, b: seq<Task>, id: string)
    ensures CountId(a + b, id) == CountId(a, id) + CountId(b, id)
  {
    if a == [] {
      assert a + b == b;
    } else {
      assert (a + b)[1..] == a[1..] + b;
      CountIdConcat(a[1..], b, id);
    }
  }

  /** A sequence holds a task with id `id` exactly when it counts one. */
  lemma {:induction false} CountIdPositive(tasks: seq<Task>, id: string)
    ensures CountId(tasks, id) > 0 <==> exists j :: 0 <= j < |tasks| && tasks[j].id == id
  {
    if tasks != [] {
      CountIdPositive(tasks[1..], id);
      if CountId(tasks[1..], id) > 0 {
        var j :| 0 <= j < |tasks[1..]| && tasks[1..][j].id == id;
        assert tasks[j + 1].id == id;
      }
    }
  }

  /** How many tasks on the board carry id `id`. */
  function Occurrences(columns: seq<Column>, id: string): nat {
    CountId(AllTasks(columns), id)
  }

  /** No id is carried by two tasks. */
  ghost predicate UniqueIds(columns: seq<Column>) {
    forall id :: Occurrences(columns, id) <= 1
  }

  lemma WithTasksOccurrences(columns: seq<Column>, c: nat, ts: seq<Task>, id: string)
    requires c < |columns|
    ensures Occurrences(WithTasks(columns, c, ts), id) + CountId(columns[c].tasks, id) ==
            Occurrences(columns, id) + CountId(ts, id)
  {
    var r := WithTasks(columns, c, ts);
    AllTasksSplit(columns, c);
    AllTasksSplit(r, c);
    assert r[..c] == columns[..c];
    assert r[c + 1..] == columns[c + 1..];
    CountIdConcat(AllTasks(columns[..c]) + columns[c].tasks, AllTasks(columns[c + 1..]), id);
    CountIdConcat(AllTasks(columns[..c]), columns[c].tasks, id);
    CountIdConcat(AllTasks(columns[..c]) + ts, AllTasks(columns[c + 1..]), id);
    CountIdConcat(AllTasks(columns[..c]), ts, id);
  }

  /** A task on the board is counted among its id's occurrences. */
  lemma OccursOnBoard(columns: seq<Column>, p: Position)
    requires ValidPosition(columns, p)
    ensures Occurrences(columns, columns[p.col].tasks[p.index].id) > 0
  {
    var id := columns[p.col].tasks[p.index].id;
    AllTasksSplit(columns, p.col);
    CountIdConcat(AllTasks(columns[..p.col]) + columns[p.col].tasks, AllTasks(columns[p.col + 1..]), id);
    CountIdConcat(AllTasks(columns[..p.col]), columns[p.col].tasks, id);
    CountIdPositive(columns[p.col].tasks, id);
  }

  /** The board holds a task with a given id exactly when that id occurs. */
  lemma HasTaskIff(columns: seq<Column>, id: string)
    ensures HasTask(columns, id) <==> Occurrences(columns, id) > 0
  {
    if HasTask(columns, id) {
      var c, j :| 0 <= c < |columns| && 0 <= j < |columns[c].tasks| && columns[c].tasks[j].id == id;
      OccursOnBoard(columns, Position(c, j));
    }
    if Occurrences(columns, id) > 0 {
      OccurrenceOnBoard(columns, id);
    }
  }

  lemma {:induction false} OccurrenceOnBoard(columns: seq<Column>, id: string)
    requires Occurrences(columns, id) > 0
    ensures HasTask(columns, id)
  {
    CountIdConcat(columns[0].tasks, AllTasks(columns[1..]), id);
    if CountId(columns[0].tasks, id) > 0 {
      CountIdPositive(columns[0].tasks, id);
      var j :| 0 <= j < |columns[0].tasks| && columns[0].tasks[j].id == id;
      assert columns[0].tasks[j].id == id;
    } else {
      OccurrenceOnBoard(columns[1..], id);
      var c, j :| 0 <= c < |columns[1..]| && 0 <= j < |columns[1..][c].tasks| && columns[1..][c].tasks[j].id == id;
      assert columns[c + 1].tasks[j].id == id;
    }
  }
}
