/** The board store: the column list and task map (already loaded), the
    create/edit modal flags, the two-phase delete, and keyboard movement. */
module KanbanBoard {
  import opened Wrappers
  import opened JsArray
  import opened KanbanTypes

  /** The column list after `prev.map(...)` drops `id` from every column
      that lists it; columns that do not list it are kept as they are. */
  function DropFromColumns(columns: seq<Column>, id: Id): (r: seq<Column>)
    ensures |r| == |columns|
    ensures forall i :: 0 <= i < |columns| ==>
      && r[i] == columns[i].(taskIds := r[i].taskIds)
      && r[i].taskIds == Without(columns[i].taskIds, id)
  {
    assert forall i :: 0 <= i < |columns| && id !in columns[i].taskIds ==>
      Without(columns[i].taskIds, id) == columns[i].taskIds by {
      forall i | 0 <= i < |columns| && id !in columns[i].taskIds
        ensures Without(columns[i].taskIds, id) == columns[i].taskIds
      {
        WithoutAbsent(columns[i].taskIds, id);
      }
    }
    seq(|columns|, i requires 0 <= i < |columns| =>
      if id in columns[i].taskIds
      then columns[i].(taskIds := Without(columns[i].taskIds, id))
      else columns[i])
  }

  /** The board after the delete is confirmed: the task's key leaves the
      map and its id leaves every column. */
  function DeleteTask(b: Board, id: Id): (r: Board)
    ensures r.tasks.Keys == b.tasks.Keys - {id}
    ensures forall k :: k in r.tasks ==> r.tasks[k] == b.tasks[k]
    ensures |r.columns| == |b.columns|
    ensures forall i :: 0 <= i < |b.columns| ==>
      && id !in r.columns[i].taskIds
      && r.columns[i] == b.columns[i].(taskIds := r.columns[i].taskIds)
      && |r.columns[i].taskIds| == |b.columns[i].taskIds| - multiset(b.columns[i].taskIds)[id]
      && (forall y :: y != id ==> (y in r.columns[i].taskIds <==> y in b.columns[i].taskIds))
    ensures forall i :: 0 <= i < |b.columns| && id !in b.columns[i].taskIds ==> r.columns[i] == b.columns[i]
  {
    Board(DropFromColumns(b.columns, id), b.tasks - {id})
  }

  /** Deleting keeps the order of the ids that remain: a column listing
      `id` once, between `p` and `q`, ends up as `p + q`. */
  lemma DeleteKeepsOrder(b: Board, id: Id, i: nat, p: seq<Id>, q: seq<Id>)
    requires i < |b.columns|
    requires b.columns[i].taskIds == p + [id] + q
    requires id !in p && id !in q
    ensures DeleteTask(b, id).columns[i].taskIds == p + q
  {
    WithoutSingle(p, id, q);
  }

  lemma DeleteNoDuplicates(b: Board, id: Id)
    requires WellFormed(b)
    ensures NoDuplicatesWithin(DeleteTask(b, id).columns)
  {
    var r := DeleteTask(b, id);
    forall i | 0 <= i < |r.columns| ensures NoDuplicates(r.columns[i].taskIds) {
      assert NoDuplicates(b.columns[i].taskIds);
      assert multiset(r.columns[i].taskIds) == multiset(b.columns[i].taskIds)[id := 0];
    }
  }

  lemma DeleteDisjoint(b: Board, id: Id)
    requires WellFormed(b)
    ensures DisjointColumns(DeleteTask(b, id).columns)
  {
    var r := DeleteTask(b, id);
    forall i, j, x | 0 <= i < |r.columns| && 0 <= j < |r.columns| && i != j && x in r.columns[i].taskIds
      ensures x !in r.columns[j].taskIds
    {
      assert x in b.columns[i].taskIds;
    }
  }

  lemma DeleteStatusAt(b: Board, id: Id, i: nat, x: Id)
    requires StatusMatches(b)
    requires i < |b.columns| && x in DeleteTask(b, id).columns[i].taskIds
    ensures var r := DeleteTask(b, id);
      x in r.tasks && r.tasks[x].Task? && r.tasks[x].status == r.columns[i].id
  {
    var r := DeleteTask(b, id);
    assert x != id && x in b.columns[i].taskIds;
    assert x in r.tasks.Keys;
  }

  lemma DeleteStatus(b: Board, id: Id)
    requires StatusMatches(b)
    ensures StatusMatches(DeleteTask(b, id))
  {
    var r := DeleteTask(b, id);
    forall i, x | 0 <= i < |r.columns| && x in r.columns[i].taskIds
      ensures x in r.tasks && r.tasks[x].Task? && r.tasks[x].status == r.columns[i].id
    {
      DeleteStatusAt(b, id, i, x);
    }
  }

  lemma DeletePlaced(b: Board, id: Id)
    requires WellFormed(b)
    ensures TasksPlaced(DeleteTask(b, id))
  {
    var r := DeleteTask(b, id);
    forall x | x in r.tasks
      ensures r.tasks[x].Task? && r.tasks[x].id == x
      ensures exists i :: 0 <= i < |r.columns| && x in r.columns[i].taskIds
    {
      var i :| 0 <= i < |b.columns| && x in b.columns[i].taskIds;
      assert x in r.columns[i].taskIds;
    }
  }

  /** A confirmed delete keeps the board well formed. */
  lemma DeletePreservesWellFormed(b: Board, id: Id)
    requires WellFormed(b)
    ensures WellFormed(DeleteTask(b, id))
  {
    DeleteNoDuplicates(b, id);
    DeleteDisjoint(b, id);
    DeleteStatus(b, id);
    DeletePlaced(b, id);
  }

  /** `prev.map((col) => col.id === columnId ? { ...col, taskIds } : col)`. */
  function SetTaskIds(columns: seq<Column>, columnId: Id, ids: seq<Id>): (r: seq<Column>)
    ensures |r| == |columns|
    ensures DistinctColumnIds(columns) ==> forall ci :: 0 <= ci < |columns| && columns[ci].id == columnId ==>
      r == columns[ci := columns[ci].(taskIds := ids)]
  {
    seq(|columns|, i requires 0 <= i < |columns| =>
      if columns[i].id == columnId then columns[i].(taskIds := ids) else columns[i])
  }

  /** The map that ArrowLeft/ArrowRight apply: the column `fromId` drops
      `taskId`, the column `toId` gets it appended, others are kept. */
  function MoveToEnd(columns: seq<Column>, taskId: Id, fromId: Id, toId: Id): (r: seq<Column>)
    ensures |r| == |columns|
    ensures DistinctColumnIds(columns) ==>
      forall si, ti :: 0 <= si < |columns| && 0 <= ti < |columns| && columns[si].id == fromId && columns[ti].id == toId && si != ti ==>
        r == columns[si := columns[si].(taskIds := Without(columns[si].taskIds, taskId))]
                    [ti := columns[ti].(taskIds := columns[ti].taskIds + [taskId])]
  {
    seq(|columns|, i requires 0 <= i < |columns| =>
      if columns[i].id == fromId then columns[i].(taskIds := Without(columns[i].taskIds, taskId))
      else if columns[i].id == toId then columns[i].(taskIds := columns[i].taskIds + [taskId])
      else columns[i])
  }

  /** The id list after ArrowUp/ArrowDown: the task swapped with its
      neighbour when there is one in that direction, otherwise unchanged. */
  function Vertical(ids: seq<Id>, i: nat, key: string): (r: seq<Id>)
    requires i < |ids|
    ensures multiset(r) == multiset(ids) && |r| == |ids|
  {
    if key == "ArrowUp" && i > 0 then Swap(ids, i - 1, i)
    else if key == "ArrowDown" && i < |ids| - 1 then Swap(ids, i, i + 1)
    else ids
  }

  /** The board after `handleKeyboardMove(taskId, columnId, key)`. */
  function KeyboardMove(b: Board, taskId: Id, columnId: Id, key: string): (r: Board)
    ensures FindColumn(b.columns, columnId).None? ==> r == b
    ensures FindColumn(b.columns, columnId).Some? && taskId !in b.columns[FindColumn(b.columns, columnId).value].taskIds ==> r == b
    ensures |r.columns| == |b.columns|
    ensures forall i :: 0 <= i < |b.columns| ==> r.columns[i] == b.columns[i].(taskIds := r.columns[i].taskIds)
  {
    match FindColumn(b.columns, columnId)
    case None => b
    case Some(ci) =>
      var ids := b.columns[ci].taskIds;
      var i := IndexOf(ids, taskId);
      if i == -1 then b
      else if key == "ArrowLeft" && ci > 0 then
        var dest := b.columns[ci - 1].id;
        Board(MoveToEnd(b.columns, taskId, columnId, dest), SetStatus(b.tasks, taskId, dest))
      else if key == "ArrowRight" && ci < |b.columns| - 1 then
        var dest := b.columns[ci + 1].id;
        Board(MoveToEnd(b.columns, taskId, columnId, dest), SetStatus(b.tasks, taskId, dest))
      else
        Board(SetTaskIds(b.columns, columnId, Vertical(ids, i, key)), b.tasks)
  }

  /** ArrowUp swaps the task with its predecessor and ArrowDown with its
      successor, when there is one; only that column changes, and its list
      stays a permutation of the old one. */
  lemma KeyboardVerticalMove(b: Board, taskId: Id, ci: nat, key: string)
    requires DistinctColumnIds(b.columns)
    requires ci < |b.columns| && taskId in b.columns[ci].taskIds
    requires key == "ArrowUp" || key == "ArrowDown"
    ensures var ids := b.columns[ci].taskIds;
      var i := IndexOf(ids, taskId);
      var r := KeyboardMove(b, taskId, b.columns[ci].id, key);
      && r.tasks == b.tasks
      && r.columns == b.columns[ci := b.columns[ci].(taskIds := r.columns[ci].taskIds)]
      && multiset(r.columns[ci].taskIds) == multiset(ids)
      && (key == "ArrowUp" && i > 0 ==> r.columns[ci].taskIds == Swap(ids, i - 1, i))
      && (key == "ArrowDown" && i < |ids| - 1 ==> r.columns[ci].taskIds == Swap(ids, i, i + 1))
      && (key == "ArrowUp" && i == 0 ==> r == b)
      && (key == "ArrowDown" && i == |ids| - 1 ==> r == b)
  {
    var ids := b.columns[ci].taskIds;
    assert FindColumn(b.columns, b.columns[ci].id) == Some(ci);
    assert b.columns[ci := b.columns[ci].(taskIds := ids)] == b.columns;
  }

  /** ArrowLeft (ArrowRight) outside the first (last) column moves the
      task to the end of the neighbouring column and rewrites its status;
      no capacity limit is consulted. */
  lemma KeyboardHorizontalMove(b: Board, taskId: Id, ci: nat, key: string)
    requires DistinctColumnIds(b.columns)
    requires ci < |b.columns| && taskId in b.columns[ci].taskIds
    requires (key == "ArrowLeft" && ci > 0) || (key == "ArrowRight" && ci < |b.columns| - 1)
    ensures var di := if key == "ArrowLeft" then ci - 1 else ci + 1;
      var r := KeyboardMove(b, taskId, b.columns[ci].id, key);
      && r.tasks == SetStatus(b.tasks, taskId, b.columns[di].id)
      && r.columns == b.columns[ci := b.columns[ci].(taskIds := Without(b.columns[ci].taskIds, taskId))]
                               [di := b.columns[di].(taskIds := b.columns[di].taskIds + [taskId])]
  {
    assert FindColumn(b.columns, b.columns[ci].id) == Some(ci);
  }

  /** A key other than the four arrows, ArrowLeft in the first column and
      ArrowRight in the last one change nothing. */
  lemma KeyboardNoMove(b: Board, taskId: Id, ci: nat, key: string)
    requires DistinctColumnIds(b.columns)
    requires ci < |b.columns|
    requires || (key != "ArrowUp" && key != "ArrowDown" && key != "ArrowLeft" && key != "ArrowRight")
             || (key == "ArrowLeft" && ci == 0)
             || (key == "ArrowRight" && ci == |b.columns| - 1)
    ensures KeyboardMove(b, taskId, b.columns[ci].id, key) == b
  {
    assert FindColumn(b.columns, b.columns[ci].id) == Some(ci);
    assert b.columns[ci := b.columns[ci].(taskIds := b.columns[ci].taskIds)] == b.columns;
  }

  /** Keyboard moves do not consult `maxTasks`: ArrowRight into a column
      already at its limit of one task leaves it holding two. */
  lemma KeyboardMoveIgnoresCapacity()
    ensures var todo := Column("todo", "To do", "#eee", ["a"], None);
      var done := Column("done", "Done", "#eee", ["b"], Some(1));
      var r := KeyboardMove(Board([todo, done], map[]), "a", "todo", "ArrowRight");
      && AtCapacity(done)
      && r.columns[0].taskIds == []
      && r.columns[1].taskIds == ["b", "a"]
      && r.tasks["a"].status == "done"
  {
    var todo := Column("todo", "To do", "#eee", ["a"], None);
    var done := Column("done", "Done", "#eee", ["b"], Some(1));
    var b := Board([todo, done], map[]);
    assert FindColumn(b.columns, "todo") == Some(0);
    assert IndexOf(todo.taskIds, "a") == 0;
    assert DistinctColumnIds(b.columns);
    assert Without(["a"], "a") == [] by {
      assert ["a"][1..] == [];
    }
  }

  /** Every keyboard move keeps the board well formed. */
  lemma KeyboardMovePreservesWellFormed(b: Board, taskId: Id, columnId: Id, key: string)
    requires WellFormed(b)
    ensures WellFormed(KeyboardMove(b, taskId, columnId, key))
  {
    match FindColumn(b.columns, columnId)
    case None =>
    case Some(ci) =>
      var ids := b.columns[ci].taskIds;
      var i := IndexOf(ids, taskId);
      if i == -1 {
      } else if (key == "ArrowLeft" && ci > 0) || (key == "ArrowRight" && ci < |b.columns| - 1) {
        var di := if key == "ArrowLeft" then ci - 1 else ci + 1;
        KeyboardHorizontalMove(b, taskId, ci, key);
        assert multiset(b.columns[di].taskIds + [taskId]) == multiset(b.columns[di].taskIds) + multiset{taskId};
        RelocatePreservesWellFormed(b, taskId, ci, di, b.columns[di].taskIds + [taskId]);
      } else {
        RearrangePreservesWellFormed(b, ci, Vertical(ids, i, key));
      }
  }

  /** The state the board hook holds: the two board slices (already
      loaded), the create/edit modal, and the delete confirmation.
      `deleteCalls` lists the ids passed to `onTaskDelete`, in call order. */
  class BoardStore {
    var columns: seq<Column>
    var tasks: map<Id, Task>
    var isModalOpen: bool
    var activeColumnId: Option<Id>
    var draftTask: Option<Task>
    var confirmOpen: bool
    var taskToDelete: Option<Task>
    var deleteCalls: seq<Id>

    /** Both board slices as one value. */
    function State(): Board
      reads this
    {
      Board(columns, tasks)
    }

    constructor (columns: seq<Column>, tasks: map<Id, Task>)
      ensures State() == Board(columns, tasks)
      ensures !isModalOpen && activeColumnId == None && draftTask == None
      ensures !confirmOpen && taskToDelete == None && deleteCalls == []
    {
      this.columns := columns;
      this.tasks := tasks;
      isModalOpen := false;
      activeColumnId := None;
      draftTask := None;
      confirmOpen := false;
      taskToDelete := None;
      deleteCalls := [];
    }

    /** Opens the modal to create a task in `columnId`. */
    method OpenCreate(columnId: Id)
      modifies this`activeColumnId, this`draftTask, this`isModalOpen
      ensures activeColumnId == Some(columnId) && draftTask == None && isModalOpen
    {
      activeColumnId := Some(columnId);
      draftTask := None;
      isModalOpen := true;
    }

    /** Opens the modal to edit `task`, in the column its status names. */
    method OpenEdit(task: Task)
      modifies this`activeColumnId, this`draftTask, this`isModalOpen
      ensures draftTask == Some(task) && activeColumnId == Some(task.status) && isModalOpen
    {
      draftTask := Some(task);
      activeColumnId := Some(task.status);
      isModalOpen := true;
    }

    /** The exposed `setIsModalOpen` setter; closing leaves the draft and
        the active column as they were. */
    method SetModalOpen(open: bool)
      modifies this`isModalOpen
      ensures isModalOpen == open
    {
      isModalOpen := open;
    }

    /** First phase of a delete: remember the task and open the prompt. */
    method RequestDelete(task: Task)
      modifies this`taskToDelete, this`confirmOpen
      ensures taskToDelete == Some(task) && confirmOpen
    {
      taskToDelete := Some(task);
      confirmOpen := true;
    }

    /** The exposed `setConfirmOpen` setter; cancelling this way keeps the
        remembered task. */
    method SetConfirmOpen(open: bool)
      modifies this`confirmOpen
      ensures confirmOpen == open
    {
      confirmOpen := open;
    }

    /** Second phase of a delete: the task leaves the map and every column,
        `onTaskDelete` is called once, and the prompt closes. */
    method ConfirmDelete(taskId: Id)
      modifies this`columns, this`tasks, this`deleteCalls, this`confirmOpen, this`taskToDelete
      ensures State() == DeleteTask(old(State()), taskId)
      ensures deleteCalls == old(deleteCalls) + [taskId]
      ensures !confirmOpen && taskToDelete == None
    {
      var next := tasks;
      next := next - {taskId};
      tasks := next;
      columns := DropFromColumns(columns, taskId);
      deleteCalls := deleteCalls + [taskId];
      confirmOpen := false;
      taskToDelete := None;
    }

    /** Moves a task with the arrow keys: Up/Down swap it with a neighbour
        in a copy of its column's list, Left/Right send it to the end of the
        adjacent column. */
    method HandleKeyboardMove(taskId: Id, columnId: Id, key: string)
      modifies this`columns, this`tasks
      ensures State() == KeyboardMove(old(State()), taskId, columnId, key)
    {
      ghost var b := State();
      var found := FindColumn(columns, columnId);
      if found.None? {
        return;
      }
      var colIndex := found.value;
      var column := columns[colIndex];
      var ids := new Id[|column.taskIds|](j requires 0 <= j < |column.taskIds| => column.taskIds[j]);
      assert ids[..] == column.taskIds;
      var index := IndexOf(ids[..], taskId);
      if index == -1 {
        return;
      }

      if key == "ArrowUp" && index > 0 {
        ids[index - 1], ids[index] := ids[index], ids[index - 1];
      }
      if key == "ArrowDown" && index < ids.Length - 1 {
        ids[index + 1], ids[index] := ids[index], ids[index + 1];
      }
      assert ids[..] == Vertical(column.taskIds, index, key);

      if key == "ArrowLeft" && colIndex > 0 {
        var prevCol := columns[colIndex - 1];
        columns := MoveToEnd(columns, taskId, columnId, prevCol.id);
        tasks := SetStatus(tasks, taskId, prevCol.id);
        assert State() == KeyboardMove(b, taskId, columnId, key);
        return;
      }
      if key == "ArrowRight" && colIndex < |columns| - 1 {
        var nextCol := columns[colIndex + 1];
        columns := MoveToEnd(columns, taskId, columnId, nextCol.id);
        tasks := SetStatus(tasks, taskId, nextCol.id);
        assert State() == KeyboardMove(b, taskId, columnId, key);
        return;
      }
      columns := SetTaskIds(columns, columnId, ids[..]);
    }
  }
}
