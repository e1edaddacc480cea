/** The board's records: tasks, columns, and the board that pairs the
    ordered column list with the task map, plus the invariants that tie the
    two together. */
module KanbanTypes {
  import opened Wrappers
  import opened JsArray

  type Id = string

  datatype Priority = Low | Medium | High | Urgent

  /** A task. `StatusOnly` is the object `{ status }` that spreading a
      missing map entry into a status update produces: it has no id, title
      or creation date. Timestamps are milliseconds. */
  datatype Task =
    | Task(
        id: Id,
        title: string,
        description: Option<string>,
        status: Id,
        priority: Option<Priority>,
        assignee: Option<string>,
        tags: Option<seq<string>>,
        createdAt: int,
        dueDate: Option<int>)
    | StatusOnly(status: Id)

  /** A column and its ordered task ids; `maxTasks` is the optional limit. */
  datatype Column = Column(
    id: Id,
    title: string,
    color: string,
    taskIds: seq<Id>,
    maxTasks: Option<int>)

  /** The two state slices of the board: columns in display order and the
      task map keyed by id. */
  datatype Board = Board(columns: seq<Column>, tasks: map<Id, Task>)

  /** `col.maxTasks && col.taskIds.length >= col.maxTasks`: a limit of 0 is
      falsy and means "no limit"; a negative limit makes the column full. */
  predicate AtCapacity(c: Column): (full: bool)
    ensures c.maxTasks.None? || c.maxTasks == Some(0) ==> !full
    ensures c.maxTasks.Some? && c.maxTasks.value < 0 ==> full
    ensures c.maxTasks.Some? && c.maxTasks.value > 0 ==> (full <==> |c.taskIds| >= c.maxTasks.value)
  {
    c.maxTasks.Some? && c.maxTasks.value != 0 && |c.taskIds| >= c.maxTasks.value
  }

  /** `columns.findIndex((c) => c.id === id)`, with -1 as `None`; `find`
      returns the column at the same position. */
  function FindColumn(columns: seq<Column>, id: Id): (r: Option<nat>)
    ensures r.None? <==> forall i :: 0 <= i < |columns| ==> columns[i].id != id
    ensures r.Some? ==> r.value < |columns| && columns[r.value].id == id
    ensures r.Some? ==> forall i :: 0 <= i < r.value ==> columns[i].id != id
  {
    if columns == [] then None
    else if columns[0].id == id then Some(0)
    else match FindColumn(columns[1..], id)
      case None => None
      case Some(i) => Some(i + 1)
  }

  /** `{ ...tasks[id], status }` written back under `id`. */
  function SetStatus(tasks: map<Id, Task>, id: Id, status: Id): (r: map<Id, Task>)
    ensures r.Keys == tasks.Keys + {id}
    ensures r[id].status == status
    ensures id in tasks ==> r[id] == tasks[id].(status := status)
    ensures id !in tasks ==> r[id] == StatusOnly(status)
    ensures forall k :: k in tasks && k != id ==> r[k] == tasks[k]
  {
    if id in tasks then tasks[id := tasks[id].(status := status)]
    else tasks[id := StatusOnly(status)]
  }

  /** Column ids are unique. */
  ghost predicate DistinctColumnIds(columns: seq<Column>)
  {
    forall i, j :: 0 <= i < j < |columns| ==> columns[i].id != columns[j].id
  }

  /** No column lists an id twice. */
  ghost predicate NoDuplicatesWithin(columns: seq<Column>)
  {
    forall i :: 0 <= i < |columns| ==> NoDuplicates(columns[i].taskIds)
  }

  /** No id is listed by two columns. */
  ghost predicate DisjointColumns(columns: seq<Column>)
  {
    forall i, j, x :: 0 <= i < |columns| && 0 <= j < |columns| && i != j && x in columns[i].taskIds
      ==> x !in columns[j].taskIds
  }

  /** Every listed id has a full task record whose status is the id of the
      column listing it. */
  ghost predicate StatusMatches(b: Board)
  {
    forall i, x :: 0 <= i < |b.columns| && x in b.columns[i].taskIds
      ==> x in b.tasks && b.tasks[x].Task? && b.tasks[x].status == b.columns[i].id
  }

  /** Every task in the map is a full record stored under its own id and is
      listed by some column. */
  ghost predicate TasksPlaced(b: Board)
  {
    forall x :: x in b.tasks ==>
      && b.tasks[x].Task?
      && b.tasks[x].id == x
      && exists i :: 0 <= i < |b.columns| && x in b.columns[i].taskIds
  }

  /** The board invariant: the ordered id lists and the task map describe
      the same placement of tasks, each task in exactly one column. */
  ghost predicate WellFormed(b: Board)
  {
    && DistinctColumnIds(b.columns)
    && NoDuplicatesWithin(b.columns)
    && DisjointColumns(b.columns)
    && StatusMatches(b)
    && TasksPlaced(b)
  }

  /** Replacing one column's list by a rearrangement of it (same ids, same
      multiplicities) keeps the board well formed. */
  lemma RearrangePreservesWellFormed(b: Board, ci: nat, ids: seq<Id>)
    requires WellFormed(b)
    requires ci < |b.columns|
    requires multiset(ids) == multiset(b.columns[ci].taskIds)
    ensures WellFormed(Board(b.columns[ci := b.columns[ci].(taskIds := ids)], b.tasks))
  {
    var cols := b.columns[ci := b.columns[ci].(taskIds := ids)];
    var nb := Board(cols, b.tasks);
    forall i, x | 0 <= i < |cols|
      ensures x in cols[i].taskIds <==> x in b.columns[i].taskIds
    {
      if i == ci {
        assert x in ids <==> x in multiset(ids);
        assert x in b.columns[ci].taskIds <==> x in multiset(b.columns[ci].taskIds);
      }
    }
    forall x | x in nb.tasks
      ensures exists i :: 0 <= i < |cols| && x in cols[i].taskIds
    {
      var i :| 0 <= i < |b.columns| && x in b.columns[i].taskIds;
      assert x in cols[i].taskIds;
    }
  }

  /** The board after task `t` leaves column `si` and column `ti` takes
      the list `ids`, with the task's status rewritten to `ti`'s id. */
  function Relocated(b: Board, t: Id, si: nat, ti: nat, ids: seq<Id>): (r: Board)
    requires si < |b.columns| && ti < |b.columns|
    ensures |r.columns| == |b.columns|
    ensures forall i :: 0 <= i < |b.columns| ==> r.columns[i] == b.columns[i].(taskIds := r.columns[i].taskIds)
  {
    Board(
      b.columns[si := b.columns[si].(taskIds := Without(b.columns[si].taskIds, t))]
               [ti := b.columns[ti].(taskIds := ids)],
      SetStatus(b.tasks, t, b.columns[ti].id))
  }

  /** The preconditions shared by the relocation lemmas below. */
  ghost predicate CanRelocate(b: Board, t: Id, si: nat, ti: nat, ids: seq<Id>)
  {
    && WellFormed(b)
    && si < |b.columns| && ti < |b.columns| && si != ti
    && t in b.columns[si].taskIds
    && multiset(ids) == multiset(b.columns[ti].taskIds) + multiset{t}
  }

  lemma RelocatedMembers(b: Board, t: Id, si: nat, ti: nat, ids: seq<Id>, i: nat, x: Id)
    requires CanRelocate(b, t, si, ti, ids)
    requires i < |b.columns|
    ensures var cols := Relocated(b, t, si, ti, ids).columns;
      x in cols[i].taskIds <==>
        if i == ti then x in b.columns[ti].taskIds || x == t
        else if i == si then x in b.columns[si].taskIds && x != t
        else x in b.columns[i].taskIds
  {
    if i == ti {
      assert x in ids <==> x in multiset(ids);
      assert x in b.columns[ti].taskIds <==> x in multiset(b.columns[ti].taskIds);
    }
  }

  lemma RelocatedNoDuplicates(b: Board, t: Id, si: nat, ti: nat, ids: seq<Id>)
    requires CanRelocate(b, t, si, ti, ids)
    ensures NoDuplicatesWithin(Relocated(b, t, si, ti, ids).columns)
  {
    var cols := Relocated(b, t, si, ti, ids).columns;
    forall i | 0 <= i < |cols| ensures NoDuplicates(cols[i].taskIds) {
      if i == ti {
        assert t !in b.columns[ti].taskIds;
        assert multiset(b.columns[ti].taskIds)[t] == 0;
        forall x ensures multiset(ids)[x] <= 1 {
          assert NoDuplicates(b.columns[ti].taskIds);
        }
      } else if i == si {
        assert NoDuplicates(b.columns[si].taskIds);
      }
    }
  }

  lemma RelocatedDisjoint(b: Board, t: Id, si: nat, ti: nat, ids: seq<Id>)
    requires CanRelocate(b, t, si, ti, ids)
    ensures DisjointColumns(Relocated(b, t, si, ti, ids).columns)
  {
    var cols := Relocated(b, t, si, ti, ids).columns;
    forall i, j, x | 0 <= i < |cols| && 0 <= j < |cols| && i != j && x in cols[i].taskIds
      ensures x !in cols[j].taskIds
    {
      RelocatedMembers(b, t, si, ti, ids, i, x);
      RelocatedMembers(b, t, si, ti, ids, j, x);
    }
  }

  lemma RelocatedStatus(b: Board, t: Id, si: nat, ti: nat, ids: seq<Id>)
    requires CanRelocate(b, t, si, ti, ids)
    ensures StatusMatches(Relocated(b, t, si, ti, ids))
  {
    var nb := Relocated(b, t, si, ti, ids);
    assert t in b.tasks && b.tasks[t].Task?;
    forall i, x | 0 <= i < |nb.columns| && x in nb.columns[i].taskIds
      ensures x in nb.tasks && nb.tasks[x].Task? && nb.tasks[x].status == nb.columns[i].id
    {
      RelocatedMembers(b, t, si, ti, ids, i, x);
    }
  }

  lemma RelocatedPlaced(b: Board, t: Id, si: nat, ti: nat, ids: seq<Id>)
    requires CanRelocate(b, t, si, ti, ids)
    ensures TasksPlaced(Relocated(b, t, si, ti, ids))
  {
    var nb := Relocated(b, t, si, ti, ids);
    assert t in b.tasks && b.tasks[t].Task?;
    forall x | x in nb.tasks
      ensures nb.tasks[x].Task? && nb.tasks[x].id == x
      ensures exists i :: 0 <= i < |nb.columns| && x in nb.columns[i].taskIds
    {
      if x == t {
        RelocatedMembers(b, t, si, ti, ids, ti, x);
      } else {
        var i :| 0 <= i < |b.columns| && x in b.columns[i].taskIds;
        RelocatedMembers(b, t, si, ti, ids, i, x);
      }
    }
  }

  /** Moving one task between two columns, with its status following it,
      keeps the board well formed. */
  lemma RelocatePreservesWellFormed(b: Board, t: Id, si: nat, ti: nat, ids: seq<Id>)
    requires CanRelocate(b, t, si, ti, ids)
    ensures WellFormed(Relocated(b, t, si, ti, ids))
  {
    RelocatedNoDuplicates(b, t, si, ti, ids);
    RelocatedDisjoint(b, t, si, ti, ids);
    RelocatedStatus(b, t, si, ti, ids);
    RelocatedPlaced(b, t, si, ti, ids);
  }
}
