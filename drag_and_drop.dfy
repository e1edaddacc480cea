/** The drag-and-drop hook: a four-field drag session updated by the drag
    handlers, and the drop handler that reorders within a column or moves
    a task across columns, guarded by the target column's capacity. */
module DragAndDrop {
  import opened Wrappers
  import opened JsArray
  import opened KanbanTypes
  import opened KanbanBoard

  /** The session the hook keeps while a card is dragged. `hoverIndex` is
      the `data-index` of the card under the pointer, a rendered position. */
  datatype DragSession = DragSession(
    taskId: Option<Id>,
    fromColumnId: Option<Id>,
    hoverIndex: Option<nat>,
    targetColumnId: Option<Id>)

  /** The session with every field null. */
  const Idle := DragSession(None, None, None, None)

  /** The `{ taskId, fromColumnId }` payload read back when the card is
      dropped; an absent or null field is `None`. */
  datatype Payload = Payload(taskId: Option<Id>, fromColumnId: Option<Id>)

  /** The arguments of one `onTaskMove` call. `index` is `None` where the
      handler passes a null hover index through. */
  datatype MoveCall = MoveCall(taskId: Id, fromColumnId: Id, toColumnId: Id, index: Option<nat>)

  /** What a drop does: nothing, the "column is full" rejection, or a new
      board together with the `onTaskMove` call that reports it. */
  datatype DropResult = Ignored | Rejected | Committed(board: Board, call: MoveCall)

  /** `!!v` for a payload field: present and not the empty string. */
  predicate Truthy(v: Option<Id>)
  {
    v.Some? && v.value != ""
  }

  /** The insertion point of a same-column drop: `splice(null, …)` starts
      at 0. */
  function HoverOrFront(h: Option<nat>): nat
  {
    if h.Some? then h.value else 0
  }

  /** The insertion point of a cross-column drop, `hoverIndex ?? length`. */
  function HoverOrEnd(h: Option<nat>, len: nat): nat
  {
    if h.Some? then h.value else len
  }

  /** What the two hover defaults mean for the splice: with no hover
      index a same-column drop puts the task in front of every other id
      (`splice(null, …)` starts at 0) and a cross-column drop appends it
      (`hoverIndex ?? length`); with one, both insert at that position. */
  lemma HoverDefaults(ids: seq<Id>, t: Id, h: Option<nat>)
    ensures Insert(ids, HoverOrFront(None), t) == [t] + ids
    ensures Insert(ids, HoverOrEnd(None, |ids|), t) == ids + [t]
    ensures h.Some? && h.value <= |ids| ==>
      && Insert(ids, HoverOrFront(h), t) == ids[..h.value] + [t] + ids[h.value..]
      && Insert(ids, HoverOrEnd(h, |ids|), t) == ids[..h.value] + [t] + ids[h.value..]
  {
    assert Insert(ids, 0, t) == [t] + ids;
    assert Insert(ids, |ids|, t) == ids + [t];
  }

  /** The effect of `handleDrop(targetColumnId)` on board `b`, given the
      payload and the session's hover index. */
  function Drop(b: Board, hoverIndex: Option<nat>, p: Payload, targetColumnId: Id): (r: DropResult)
    ensures r.Ignored? <==>
      || !Truthy(p.taskId) || !Truthy(p.fromColumnId)
      || FindColumn(b.columns, p.fromColumnId.value).None?
      || FindColumn(b.columns, targetColumnId).None?
    ensures r.Rejected? <==>
      && !r.Ignored?
      && FindColumn(b.columns, targetColumnId).Some?
      && AtCapacity(b.columns[FindColumn(b.columns, targetColumnId).value])
    ensures r.Committed? ==>
      && r.call.taskId == p.taskId.value
      && r.call.fromColumnId == p.fromColumnId.value
      && r.call.toColumnId == targetColumnId
      && |r.board.columns| == |b.columns|
      && (forall i :: 0 <= i < |b.columns| ==>
            r.board.columns[i] == b.columns[i].(taskIds := r.board.columns[i].taskIds))
  {
    if !Truthy(p.taskId) || !Truthy(p.fromColumnId) then Ignored
    else
      var taskId, fromColumnId := p.taskId.value, p.fromColumnId.value;
      match (FindColumn(b.columns, fromColumnId), FindColumn(b.columns, targetColumnId))
      case (Some(si), Some(ti)) =>
        if AtCapacity(b.columns[ti]) then Rejected
        else if fromColumnId == targetColumnId then
          var ids := Insert(Without(b.columns[si].taskIds, taskId), HoverOrFront(hoverIndex), taskId);
          Committed(
            Board(b.columns[si := b.columns[si].(taskIds := ids)], b.tasks),
            MoveCall(taskId, fromColumnId, targetColumnId, hoverIndex))
        else
          var ids := Insert(b.columns[ti].taskIds, HoverOrEnd(hoverIndex, |b.columns[ti].taskIds|), taskId);
          Committed(
            Relocated(b, taskId, si, ti, ids),
            MoveCall(taskId, fromColumnId, targetColumnId,
              Some(if hoverIndex.Some? then hoverIndex.value else |ids| - 1)))
      case _ => Ignored
  }

  /** A payload whose task id or source column id is missing or the empty
      string (`!taskId || !fromColumnId`) is ignored, whatever the board. */
  lemma FalsyPayloadIgnored(b: Board, h: Option<nat>, p: Payload, targetColumnId: Id)
    requires p.taskId in {None, Some("")} || p.fromColumnId in {None, Some("")}
    ensures Drop(b, h, p, targetColumnId) == Ignored
  {
  }

  /** A drop onto the column it came from takes the task out of the list
      and puts it back at the hover index (the front when there is none):
      the list keeps every other id, only that column changes, no task
      changes, and `onTaskMove(taskId, col, col, hoverIndex)` reports it. */
  lemma SameColumnDrop(b: Board, hoverIndex: Option<nat>, p: Payload, ci: nat)
    requires Truthy(p.taskId) && Truthy(p.fromColumnId)
    requires ci < |b.columns| && FindColumn(b.columns, p.fromColumnId.value) == Some(ci)
    requires !AtCapacity(b.columns[ci])
    ensures var r := Drop(b, hoverIndex, p, p.fromColumnId.value);
      var t, ids := p.taskId.value, b.columns[ci].taskIds;
      && r.Committed?
      && r.board.tasks == b.tasks
      && r.board.columns == b.columns[ci := b.columns[ci].(taskIds := r.board.columns[ci].taskIds)]
      && r.board.columns[ci].taskIds == Insert(Without(ids, t), HoverOrFront(hoverIndex), t)
      && multiset(r.board.columns[ci].taskIds) == multiset(ids)[t := 1]
      && r.board.columns[ci].taskIds[SpliceStart(HoverOrFront(hoverIndex), |ids| - multiset(ids)[t])] == t
      && r.call == MoveCall(t, p.fromColumnId.value, p.fromColumnId.value, hoverIndex)
  {
    var t, ids := p.taskId.value, b.columns[ci].taskIds;
    var rest := Without(ids, t);
    var moved := Insert(rest, HoverOrFront(hoverIndex), t);
    assert Drop(b, hoverIndex, p, p.fromColumnId.value)
      == Committed(Board(b.columns[ci := b.columns[ci].(taskIds := moved)], b.tasks),
                   MoveCall(t, p.fromColumnId.value, p.fromColumnId.value, hoverIndex));
    assert |rest| == |ids| - multiset(ids)[t];
    assert multiset(moved) == multiset(ids)[t := 0] + multiset{t};
    assert multiset(ids)[t := 0] + multiset{t} == multiset(ids)[t := 1];
  }

  /** A same-column drop of a task the column lists once is a permutation
      of that column's list. */
  lemma SameColumnDropPermutes(b: Board, hoverIndex: Option<nat>, p: Payload, ci: nat)
    requires Truthy(p.taskId) && Truthy(p.fromColumnId)
    requires ci < |b.columns| && FindColumn(b.columns, p.fromColumnId.value) == Some(ci)
    requires !AtCapacity(b.columns[ci])
    requires multiset(b.columns[ci].taskIds)[p.taskId.value] == 1
    ensures var r := Drop(b, hoverIndex, p, p.fromColumnId.value);
      && r.Committed?
      && multiset(r.board.columns[ci].taskIds) == multiset(b.columns[ci].taskIds)
      && |r.board.columns[ci].taskIds| == |b.columns[ci].taskIds|
  {
    SameColumnDrop(b, hoverIndex, p, ci);
    var ids := b.columns[ci].taskIds;
    assert multiset(ids)[p.taskId.value := 1] == multiset(ids);
  }

  /** A drop onto another column removes the task from the source list,
      inserts it into the target list at the hover index (or appends it),
      rewrites only that task's status, and reports the hover index or the
      appended position. */
  lemma CrossColumnDrop(b: Board, hoverIndex: Option<nat>, p: Payload, targetColumnId: Id, si: nat, ti: nat)
    requires Truthy(p.taskId) && Truthy(p.fromColumnId)
    requires p.fromColumnId.value != targetColumnId
    requires si < |b.columns| && FindColumn(b.columns, p.fromColumnId.value) == Some(si)
    requires ti < |b.columns| && FindColumn(b.columns, targetColumnId) == Some(ti)
    requires !AtCapacity(b.columns[ti])
    ensures var r := Drop(b, hoverIndex, p, targetColumnId);
      var t, src, dst := p.taskId.value, b.columns[si].taskIds, b.columns[ti].taskIds;
      var newDst := r.board.columns[ti].taskIds;
      && r.Committed?
      && si != ti
      && r.board.columns[si].taskIds == Without(src, t)
      && newDst == Insert(dst, HoverOrEnd(hoverIndex, |dst|), t)
      && multiset(newDst) == multiset(dst) + multiset{t}
      && newDst[SpliceStart(HoverOrEnd(hoverIndex, |dst|), |dst|)] == t
      && (forall i :: 0 <= i < |b.columns| && i != si && i != ti ==> r.board.columns[i] == b.columns[i])
      && r.board.tasks.Keys == b.tasks.Keys + {t}
      && r.board.tasks[t].status == targetColumnId
      && (t in b.tasks ==> r.board.tasks[t] == b.tasks[t].(status := targetColumnId))
      && (forall k :: k in b.tasks && k != t ==> r.board.tasks[k] == b.tasks[k])
      && (hoverIndex.Some? ==> r.call.index == hoverIndex)
      && (hoverIndex.None? ==> r.call.index == Some(|newDst| - 1) && newDst[|newDst| - 1] == t)
      && (multiset(src)[t] == 1 && t !in dst ==> |r.board.columns[si].taskIds| == |src| - 1 && |newDst| == |dst| + 1)
  {
  }

  /** A committed drop never leaves the target column over its limit:
      the capacity check runs before the insertion. (A limit of 0 is falsy
      and imposes nothing.) */
  lemma DropRespectsCapacity(b: Board, hoverIndex: Option<nat>, p: Payload, targetColumnId: Id, ti: nat)
    requires ti < |b.columns| && FindColumn(b.columns, targetColumnId) == Some(ti)
    requires b.columns[ti].maxTasks.Some? && b.columns[ti].maxTasks.value != 0
    requires Drop(b, hoverIndex, p, targetColumnId).Committed?
    ensures |Drop(b, hoverIndex, p, targetColumnId).board.columns[ti].taskIds| <= b.columns[ti].maxTasks.value
  {
    var t, from := p.taskId.value, p.fromColumnId.value;
    var ids := b.columns[ti].taskIds;
    var si := FindColumn(b.columns, from).value;
    assert !AtCapacity(b.columns[ti]);
    if from == targetColumnId {
      assert si == ti;
      var r := Drop(b, hoverIndex, p, targetColumnId);
      assert r.board.columns[ti].taskIds == Insert(Without(ids, t), HoverOrFront(hoverIndex), t);
      assert |Without(ids, t)| <= |ids| < b.columns[ti].maxTasks.value;
    } else {
      CrossColumnDrop(b, hoverIndex, p, targetColumnId, si, ti);
    }
  }

  /** On a board of two columns with different ids, each id is found at
      its own column. */
  lemma FindInPair(c0: Column, c1: Column)
    requires c0.id != c1.id
    ensures FindColumn([c0, c1], c0.id) == Some(0)
    ensures FindColumn([c0, c1], c1.id) == Some(1)
  {
    assert [c0, c1][1..] == [c1];
  }

  /** Dropping `a` from `todo = [a, b]` onto an empty `done` column
      (limit 5) at index 0 gives `todo = [b]`, `done = [a]`, `a`'s status
      `done`, and reports index 0. */
  lemma CrossColumnDropExample(todo: Column, done: Column, a: Task)
    requires todo.id == "todo" && todo.taskIds == ["a", "b"]
    requires done.id == "done" && done.taskIds == [] && done.maxTasks == Some(5)
    requires a.Task? && a.status == "todo"
    ensures var r := Drop(Board([todo, done], map["a" := a]), Some(0), Payload(Some("a"), Some("todo")), "done");
      && r.Committed?
      && r.board.columns[0].taskIds == ["b"]
      && r.board.columns[1].taskIds == ["a"]
      && r.board.tasks["a"] == a.(status := "done")
      && r.call == MoveCall("a", "todo", "done", Some(0))
  {
    var b := Board([todo, done], map["a" := a]);
    FindInPair(todo, done);
    assert Without(["a", "b"], "a") == ["b"] by {
      assert ["a", "b"][1..] == ["b"];
      assert ["b"][1..] == [];
    }
    CrossColumnDrop(b, Some(0), Payload(Some("a"), Some("todo")), "done", 0, 1);
    assert Insert([], 0, "a") == ["a"];
  }

  /** A drop whose payload names the column that lists the task keeps the
      board well formed. */
  lemma DropPreservesWellFormed(b: Board, hoverIndex: Option<nat>, p: Payload, targetColumnId: Id)
    requires WellFormed(b)
    requires Truthy(p.taskId) && Truthy(p.fromColumnId)
    requires FindColumn(b.columns, p.fromColumnId.value).Some?
    requires p.taskId.value in b.columns[FindColumn(b.columns, p.fromColumnId.value).value].taskIds
    ensures var r := Drop(b, hoverIndex, p, targetColumnId);
      r.Committed? ==> WellFormed(r.board)
  {
    var t, from := p.taskId.value, p.fromColumnId.value;
    var si := FindColumn(b.columns, from).value;
    match FindColumn(b.columns, targetColumnId)
    case None =>
    case Some(ti) =>
      if !AtCapacity(b.columns[ti]) {
        var ids := b.columns[si].taskIds;
        if from == targetColumnId {
          assert NoDuplicates(ids);
          assert multiset(ids)[t] == 1;
          SameColumnDropPermutes(b, hoverIndex, p, si);
          RearrangePreservesWellFormed(b, si, Drop(b, hoverIndex, p, targetColumnId).board.columns[si].taskIds);
        } else {
          var newIds := Insert(b.columns[ti].taskIds, HoverOrEnd(hoverIndex, |b.columns[ti].taskIds|), t);
          RelocatePreservesWellFormed(b, t, si, ti, newIds);
        }
      }
  }

  /** The committed result of a same-column drop, spelled out. */
  lemma SameColumnDropResult(b: Board, h: Option<nat>, p: Payload, si: nat)
    requires Truthy(p.taskId) && Truthy(p.fromColumnId)
    requires si < |b.columns| && FindColumn(b.columns, p.fromColumnId.value) == Some(si)
    requires !AtCapacity(b.columns[si])
    ensures var t := p.taskId.value;
      var ids := Insert(Without(b.columns[si].taskIds, t), HoverOrFront(h), t);
      Drop(b, h, p, p.fromColumnId.value)
        == Committed(Board(b.columns[si := b.columns[si].(taskIds := ids)], b.tasks),
                     MoveCall(t, p.fromColumnId.value, p.fromColumnId.value, h))
  {
  }

  /** The committed result of a drop onto another column, spelled out. */
  lemma CrossColumnDropResult(b: Board, h: Option<nat>, p: Payload, targetColumnId: Id, si: nat, ti: nat)
    requires Truthy(p.taskId) && Truthy(p.fromColumnId)
    requires p.fromColumnId.value != targetColumnId
    requires si < |b.columns| && FindColumn(b.columns, p.fromColumnId.value) == Some(si)
    requires ti < |b.columns| && FindColumn(b.columns, targetColumnId) == Some(ti)
    requires !AtCapacity(b.columns[ti])
    ensures var t, dst := p.taskId.value, b.columns[ti].taskIds;
      var ids := Insert(dst, HoverOrEnd(h, |dst|), t);
      Drop(b, h, p, targetColumnId)
        == Committed(Relocated(b, t, si, ti, ids),
                     MoveCall(t, p.fromColumnId.value, targetColumnId, Some(if h.Some? then h.value else |ids| - 1)))
  {
  }

  /** The body of `handleDrop` step by step on a snapshot of the board:
      copy the column list, look both columns up, check the limit, then
      reorder or move. */
  method DropSteps(columns: seq<Column>, tasks: map<Id, Task>, h: Option<nat>, p: Payload, targetColumnId: Id)
    returns (r: DropResult)
    ensures r == Drop(Board(columns, tasks), h, p, targetColumnId)
  {
    if !Truthy(p.taskId) || !Truthy(p.fromColumnId) {
      return Ignored;
    }
    var fromColumnId := p.fromColumnId.value;

    var updatedColumns := columns;
    var source := FindColumn(updatedColumns, fromColumnId);
    var target := FindColumn(updatedColumns, targetColumnId);
    if source.None? || target.None? {
      return Ignored;
    }
    var si, ti := source.value, target.value;

    if AtCapacity(updatedColumns[ti]) {
      return Rejected;
    }

    if fromColumnId == targetColumnId {
      r := ReorderSteps(columns, tasks, h, p, si);
    } else {
      r := MoveSteps(columns, tasks, h, p, targetColumnId, si, ti);
    }
  }

  /** The same-column branch of `handleDrop`: filter the id out of the
      column's list, then splice it back in at the hover index. */
  method ReorderSteps(columns: seq<Column>, tasks: map<Id, Task>, h: Option<nat>, p: Payload, si: nat)
    returns (r: DropResult)
    requires Truthy(p.taskId) && Truthy(p.fromColumnId)
    requires si < |columns| && FindColumn(columns, p.fromColumnId.value) == Some(si)
    requires !AtCapacity(columns[si])
    ensures r == Drop(Board(columns, tasks), h, p, p.fromColumnId.value)
  {
    var taskId, fromColumnId := p.taskId.value, p.fromColumnId.value;
    var sourceCol := columns[si];
    sourceCol := sourceCol.(taskIds := Without(sourceCol.taskIds, taskId));
    sourceCol := sourceCol.(taskIds := Insert(sourceCol.taskIds, HoverOrFront(h), taskId));
    SameColumnDropResult(Board(columns, tasks), h, p, si);
    return Committed(Board(columns[si := sourceCol], tasks), MoveCall(taskId, fromColumnId, fromColumnId, h));
  }

  /** The cross-column branch of `handleDrop`: filter the id out of the
      source list, splice it into the target list at the hover index (or
      at the end), rewrite the task's status and report the index. */
  method MoveSteps(columns: seq<Column>, tasks: map<Id, Task>, h: Option<nat>, p: Payload, targetColumnId: Id, si: nat, ti: nat)
    returns (r: DropResult)
    requires Truthy(p.taskId) && Truthy(p.fromColumnId)
    requires p.fromColumnId.value != targetColumnId
    requires si < |columns| && FindColumn(columns, p.fromColumnId.value) == Some(si)
    requires ti < |columns| && FindColumn(columns, targetColumnId) == Some(ti)
    requires !AtCapacity(columns[ti])
    ensures r == Drop(Board(columns, tasks), h, p, targetColumnId)
  {
    var taskId, fromColumnId := p.taskId.value, p.fromColumnId.value;
    var updatedColumns := columns;
    var sourceCol := updatedColumns[si];
    sourceCol := sourceCol.(taskIds := Without(sourceCol.taskIds, taskId));
    updatedColumns := updatedColumns[si := sourceCol];

    var targetCol := updatedColumns[ti];
    targetCol := targetCol.(taskIds := Insert(targetCol.taskIds, HoverOrEnd(h, |targetCol.taskIds|), taskId));
    updatedColumns := updatedColumns[ti := targetCol];

    var updatedTasks := SetStatus(tasks, taskId, targetColumnId);
    var index := if h.Some? then h.value else |targetCol.taskIds| - 1;
    CrossColumnDropResult(Board(columns, tasks), h, p, targetColumnId, si, ti);
    return Committed(Board(updatedColumns, updatedTasks), MoveCall(taskId, fromColumnId, targetColumnId, Some(index)));
  }

  /** The hook's own state: the drag session, the board store whose
      columns and setters it was given, and the `onTaskMove` calls made so
      far, in order. */
  class DragController {
    var session: DragSession
    var moveCalls: seq<MoveCall>
    const store: BoardStore

    constructor (store: BoardStore)
      ensures this.store == store && session == Idle && moveCalls == []
    {
      this.store := store;
      session := Idle;
      moveCalls := [];
    }

    /** A card starts being dragged: any earlier session is replaced. */
    method HandleDragStart(taskId: Id, fromColumnId: Id)
      modifies this`session
      ensures session == DragSession(Some(taskId), Some(fromColumnId), None, None)
    {
      session := DragSession(Some(taskId), Some(fromColumnId), None, None);
    }

    /** The drag ends (dropped or cancelled): every field is cleared, so a
        second call leaves the same state. */
    method HandleDragEnd()
      modifies this`session
      ensures session == Idle
    {
      session := Idle;
    }

    /** The pointer is over column `columnId`, on the card whose
        `data-index` is `marker` (`None` when no marked card is under it).
        A full column is not taken as a target. */
    method HandleDragOver(columnId: Id, marker: Option<nat>)
      modifies this`session
      ensures var col := FindColumn(store.columns, columnId);
        if (col.Some? && AtCapacity(store.columns[col.value])) || marker.None?
        then session == old(session)
        else session == old(session).(hoverIndex := marker, targetColumnId := Some(columnId))
    {
      var col := FindColumn(store.columns, columnId);
      if col.Some? && AtCapacity(store.columns[col.value]) {
        return;
      }
      if marker.None? {
        return;
      }
      session := session.(hoverIndex := marker, targetColumnId := Some(columnId));
    }

    /** The card is dropped on column `targetColumnId`. The session's hover
        index is used whatever column it was recorded for, and the session
        itself is left for `HandleDragEnd` to clear. */
    method HandleDrop(p: Payload, targetColumnId: Id) returns (r: DropResult)
      modifies store`columns, store`tasks, this`moveCalls
      ensures r == Drop(old(store.State()), session.hoverIndex, p, targetColumnId)
      ensures store.State() == if r.Committed? then r.board else old(store.State())
      ensures moveCalls == if r.Committed? then old(moveCalls) + [r.call] else old(moveCalls)
    {
      r := DropSteps(store.columns, store.tasks, session.hoverIndex, p, targetColumnId);
      if r.Committed? {
        store.columns := r.board.columns;
        store.tasks := r.board.tasks;
        moveCalls := moveCalls + [r.call];
      }
    }
  }
}
