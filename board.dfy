/** The drop handler of the kanban board (src/components/board/Board.tsx,
    `handleDragEnd`): given the full task list, the visible tasks grouped by
    column, the id of the dragged task and the id of what it was dropped on,
    it decides which `moveTask(id, status, order)` calls to make. The calls
    are returned as a list of `Move`s instead of being made. */
module Board {
  import opened Types
  import opened Seqs
  import opened TaskUtils

  /** One `moveTask(id, status, order)` call. */
  datatype Move = Move(id: string, status: Status, order: real)

  /** What a drop does: the `moveTask` calls in the order they are made, or
      the TypeError JavaScript throws when the handler reads `.order` of an
      element that is not there. */
  datatype DropOutcome = Moves(moves: seq<Move>) | TypeError

  /** The order given to a task dropped on a column's empty area: one step
      past the column's last task, or 1000 in an empty column. */
  function ColumnDropOrder(column: seq<Task>): real
  {
    if |column| > 0 then column[|column| - 1].order + 1000.0 else 1000.0
  }

  /** The order given to a task dropped on the task at `overIndex` of another
      column; `None` where the source reads past the column (the TypeError). */
  function CrossColumnOrder(column: seq<Task>, overIndex: int): Option<real>
    requires -1 <= overIndex < |column|
  {
    if overIndex == 0 then Some(column[0].order - 1000.0)
    else if overIndex == |column| - 1 then
      (if overIndex < 0 then None else Some(column[overIndex].order + 1000.0))
    else if overIndex < 0 then None
    else Some((column[overIndex - 1].order + column[overIndex].order) / 2.0)
  }

  /** The order position `i` of a renumbered column gets. */
  function SlotOrder(i: nat): real
  {
    ((i + 1) * 1000) as real
  }

  /** The calls the `forEach` over a reordered column makes, for the tasks
      from position `k` on: one for each task whose order is not already its
      slot's. */
  function RenumberMoves(reordered: seq<Task>, k: nat): seq<Move>
  {
    if reordered == [] then []
    else
      var t := reordered[0];
      (if t.order != SlotOrder(k) then [Move(t.id, t.status, SlotOrder(k))] else [])
      + RenumberMoves(reordered[1..], k + 1)
  }

  /** The decision `handleDragEnd` takes, as a function of its inputs. */
  function DragEnd(allTasks: seq<Task>, grouped: GroupedTasks, activeId: string, over: Option<string>): DropOutcome
  {
    if over.None? then Moves([])
    else
      var activeTask := FindTask(allTasks, activeId);
      if activeTask.None? then Moves([])
      else match StatusFromId(over.value)
        case Some(s) => Moves([Move(activeId, s, ColumnDropOrder(grouped.Bucket(s)))])
        case None =>
          var overTask := FindTask(allTasks, over.value);
          if overTask.None? || overTask.value.id == activeId then Moves([])
          else DropOnTask(activeTask.value, overTask.value, SortByOrder(grouped.Bucket(overTask.value.status)))
  }

  /** The drop of `active` on the task `overTask`, whose column shows the
      tasks `column` sorted by order. */
  function DropOnTask(active: Task, overTask: Task, column: seq<Task>): DropOutcome
  {
    var overIndex := FindIndex(column, overTask.id);
    var activeIndex := FindIndex(column, active.id);
    if active.status == overTask.status then
      if activeIndex == -1 || overIndex == -1 || activeIndex == overIndex then Moves([])
      else Moves(RenumberMoves(ArrayMove(column, activeIndex, overIndex), 0))
    else match CrossColumnOrder(column, overIndex)
      case None => TypeError
      case Some(o) => Moves([Move(active.id, overTask.status, o)])
  }

  /** `handleDragEnd`, with its early returns. `DragEnd` is this method's
      specification, and the properties below are proved about it. */
  method HandleDragEnd(allTasks: seq<Task>, grouped: GroupedTasks, activeId: string, over: Option<string>)
    returns (outcome: DropOutcome)
    ensures outcome == DragEnd(allTasks, grouped, activeId, over)
  {
    if over.None? {
      return Moves([]);
    }
    var overId := over.value;
    var activeTask := FindTask(allTasks, activeId);
    if activeTask.None? {
      return Moves([]);
    }
    var overStatus := StatusFromId(overId);
    if overStatus.Some? {
      var column := grouped.Bucket(overStatus.value);
      var newOrder := if |column| > 0 then column[|column| - 1].order + 1000.0 else 1000.0;
      return Moves([Move(activeId, overStatus.value, newOrder)]);
    }
    var overTask := FindTask(allTasks, overId);
    if overTask.None? || overTask.value.id == activeId {
      return Moves([]);
    }
    outcome := HandleDropOnTask(activeTask.value, overTask.value, SortByOrder(grouped.Bucket(overTask.value.status)));
  }

  /** The `forEach` over the reordered column: a `moveTask` call for each
      task whose order is not already its slot's. */
  method RenumberColumn(reordered: seq<Task>) returns (moves: seq<Move>)
    ensures moves == RenumberMoves(reordered, 0)
  {
    moves := [];
    var i := 0;
    while i < |reordered|
      invariant 0 <= i <= |reordered|
      invariant moves + RenumberMoves(reordered[i..], i) == RenumberMoves(reordered, 0)
    {
      var task := reordered[i];
      var newOrder := ((i + 1) * 1000) as real;
      assert reordered[i..][1..] == reordered[i + 1..];
      if task.order != newOrder {
        moves := moves + [Move(task.id, task.status, newOrder)];
      }
      i := i + 1;
    }
    assert reordered[i..] == [];
    assert moves + [] == moves;
  }

  /** The part of `handleDragEnd` after the target task is found, specified
      by `DropOnTask`. */
  method HandleDropOnTask(active: Task, overTask: Task, column: seq<Task>) returns (outcome: DropOutcome)
    ensures outcome == DropOnTask(active, overTask, column)
  {
    var overIndex := FindIndex(column, overTask.id);
    var activeIndex := FindIndex(column, active.id);
    if active.status == overTask.status {
      if activeIndex == -1 || overIndex == -1 || activeIndex == overIndex {
        return Moves([]);
      }
      var reordered := ArrayMove(column, activeIndex, overIndex);
      var moves := RenumberColumn(reordered);
      return Moves(moves);
    }
    if overIndex == -1 {
      return TypeError;
    }
    var newOrder: real;
    if overIndex == 0 {
      newOrder := column[0].order - 1000.0;
    } else if overIndex == |column| - 1 {
      newOrder := column[overIndex].order + 1000.0;
    } else {
      newOrder := (column[overIndex - 1].order + column[overIndex].order) / 2.0;
    }
    return Moves([Move(active.id, overTask.status, newOrder)]);
  }

  // ---------------------------------------------------------------------
  // Properties of the decision

  /** Nothing moves when the drop has no target, when the dragged task does
      not exist, or when a task is dropped on itself. */
  lemma DragEndNoOps(allTasks: seq<Task>, grouped: GroupedTasks, activeId: string, over: Option<string>)
    ensures over.None? ==> DragEnd(allTasks, grouped, activeId, over) == Moves([])
    ensures (forall t :: t in allTasks ==> t.id != activeId) ==>
      DragEnd(allTasks, grouped, activeId, over) == Moves([])
    ensures over == Some(activeId) && StatusFromId(activeId).None? ==>
      DragEnd(allTasks, grouped, activeId, over) == Moves([])
  {
    FindTaskSpec(allTasks, activeId);
  }

  /** A drop on a column's empty area moves the dragged task into that
      column with one call, behind every task the column shows: its order is
      `computeNextOrder` at the end of the column. */
  lemma DragEndOnColumn(allTasks: seq<Task>, grouped: GroupedTasks, activeId: string, s: Status)
    requires exists t :: t in allTasks && t.id == activeId
    ensures DragEnd(allTasks, grouped, activeId, Some(StatusId(s)))
      == Moves([Move(activeId, s, ComputeNextOrder(grouped.Bucket(s), |grouped.Bucket(s)|))])
    ensures SortedBy(OrderKey, grouped.Bucket(s)) ==>
      forall t :: t in grouped.Bucket(s) ==> t.order < ColumnDropOrder(grouped.Bucket(s))
  {
    FindTaskSpec(allTasks, activeId);
    StatusIdRoundTrip(s, StatusId(s));
    var b := grouped.Bucket(s);
    if SortedBy(OrderKey, b) {
      forall t | t in b ensures t.order < ColumnDropOrder(b) {
        var i :| 0 <= i < |b| && b[i] == t;
        assert OrderKey(b[i]) <= OrderKey(b[|b| - 1]);
      }
    }
  }

  /** The forEach calls `moveTask` exactly for the tasks whose order is not
      yet their slot's, each with the task's own id and status and its slot's
      order, in column order. */
  lemma {:induction false} RenumberMovesSpec(reordered: seq<Task>, k: nat)
    ensures |RenumberMoves(reordered, k)| <= |reordered|
    ensures forall m :: m in RenumberMoves(reordered, k) <==>
      exists i :: 0 <= i < |reordered| && reordered[i].order != SlotOrder(k + i)
        && m == Move(reordered[i].id, reordered[i].status, SlotOrder(k + i))
    decreases |reordered|
  {
    if reordered != [] {
      var rest := reordered[1..];
      RenumberMovesSpec(rest, k + 1);
      var head := if reordered[0].order != SlotOrder(k)
        then [Move(reordered[0].id, reordered[0].status, SlotOrder(k))] else [];
      assert RenumberMoves(reordered, k) == head + RenumberMoves(rest, k + 1);
      forall m ensures m in RenumberMoves(reordered, k) <==>
        exists i :: 0 <= i < |reordered| && reordered[i].order != SlotOrder(k + i)
          && m == Move(reordered[i].id, reordered[i].status, SlotOrder(k + i))
      {
        if m in RenumberMoves(rest, k + 1) {
          var i :| 0 <= i < |rest| && rest[i].order != SlotOrder(k + 1 + i)
            && m == Move(rest[i].id, rest[i].status, SlotOrder(k + 1 + i));
          assert reordered[i + 1] == rest[i];
          assert k + (i + 1) == k + 1 + i;
        }
        forall i | 0 <= i < |reordered| && 0 < i && reordered[i].order != SlotOrder(k + i)
          ensures Move(reordered[i].id, reordered[i].status, SlotOrder(k + i)) in RenumberMoves(rest, k + 1)
        {
          assert rest[i - 1] == reordered[i];
          assert k + 1 + (i - 1) == k + i;
        }
      }
    }
  }

  /** Applying the forEach's calls gives the reordered column its slot
      orders: every task that needs a new order gets exactly that one, and
      a move only ever targets a task of the column, keeps its status and
      changes its order. */
  lemma SameColumnRenumbers(reordered: seq<Task>)
    ensures forall i :: 0 <= i < |reordered| && reordered[i].order != SlotOrder(i) ==>
      Move(reordered[i].id, reordered[i].status, SlotOrder(i)) in RenumberMoves(reordered, 0)
    ensures forall m :: m in RenumberMoves(reordered, 0) ==>
      exists t :: t in reordered && m.id == t.id && m.status == t.status && m.order != t.order
  {
    RenumberMovesSpec(reordered, 0);
    forall i | 0 <= i < |reordered| && reordered[i].order != SlotOrder(i)
      ensures Move(reordered[i].id, reordered[i].status, SlotOrder(i)) in RenumberMoves(reordered, 0)
    {
      assert SlotOrder(0 + i) == SlotOrder(i);
    }
    forall m | m in RenumberMoves(reordered, 0)
      ensures exists t :: t in reordered && m.id == t.id && m.status == t.status && m.order != t.order
    {
      var i :| 0 <= i < |reordered| && reordered[i].order != SlotOrder(0 + i)
        && m == Move(reordered[i].id, reordered[i].status, SlotOrder(0 + i));
      assert reordered[i] in reordered;
    }
  }

  /** In the same column the dragged task takes the drop target's position
      and the other tasks keep their relative order. */
  lemma SameColumnPlacement(column: seq<Task>, activeIndex: nat, overIndex: nat)
    requires activeIndex < |column| && overIndex < |column|
    ensures |ArrayMove(column, activeIndex, overIndex)| == |column|
    ensures multiset(ArrayMove(column, activeIndex, overIndex)) == multiset(column)
    ensures ArrayMove(column, activeIndex, overIndex)[overIndex] == column[activeIndex]
    ensures RemoveAt(ArrayMove(column, activeIndex, overIndex), overIndex) == RemoveAt(column, activeIndex)
  {
    ArrayMoveSpec(column, activeIndex, overIndex);
  }

  /** The order of a cross-column drop is `computeNextOrder` at the target's
      index, except that a drop on the last of several tasks uses the index
      past the end; an index of -1 is the TypeError. */
  lemma CrossColumnIsNextOrder(column: seq<Task>, overIndex: int)
    requires -1 <= overIndex < |column|
    ensures CrossColumnOrder(column, overIndex).None? <==> overIndex == -1
    ensures overIndex >= 0 ==>
      CrossColumnOrder(column, overIndex) == Some(ComputeNextOrder(column, if overIndex == |column| - 1 && overIndex > 0 then |column| else overIndex))
  {
  }

  /** On an ascending column a cross-column drop on the first task sorts
      before it, a drop on the last of several tasks sorts after it, and a
      drop on a task in between sorts between it and its predecessor. */
  lemma CrossColumnPlacement(column: seq<Task>, overIndex: nat)
    requires overIndex < |column|
    requires SortedBy(OrderKey, column)
    ensures var o := CrossColumnOrder(column, overIndex).value;
      (overIndex == 0 ==> forall t :: t in column ==> o < t.order)
      && (0 < overIndex == |column| - 1 ==> forall t :: t in column ==> t.order < o)
      && (0 < overIndex < |column| - 1 ==>
            column[overIndex - 1].order <= o <= column[overIndex].order
            && (column[overIndex - 1].order < column[overIndex].order ==>
                  column[overIndex - 1].order < o < column[overIndex].order))
  {
    var o := CrossColumnOrder(column, overIndex).value;
    forall t | t in column
      ensures overIndex == 0 ==> o < t.order
      ensures 0 < overIndex == |column| - 1 ==> t.order < o
    {
      var i :| 0 <= i < |column| && column[i] == t;
      assert OrderKey(column[0]) <= OrderKey(column[i]);
      assert OrderKey(column[i]) <= OrderKey(column[|column| - 1]);
    }
  }

  /** The cases of a drop on a task of another column: one call, moving the
      dragged task into the target's column; the TypeError exactly when the
      target is not among the column's visible tasks. */
  lemma DragEndCrossColumn(allTasks: seq<Task>, grouped: GroupedTasks, activeId: string, overId: string)
    requires StatusFromId(overId).None? && overId != activeId
    requires FindTask(allTasks, activeId).Some? && FindTask(allTasks, overId).Some?
    requires FindTask(allTasks, activeId).value.status != FindTask(allTasks, overId).value.status
    ensures var target := FindTask(allTasks, overId).value.status;
      var column := SortByOrder(grouped.Bucket(target));
      (DragEnd(allTasks, grouped, activeId, Some(overId)).TypeError? <==>
         forall t :: t in column ==> t.id != overId)
      && (DragEnd(allTasks, grouped, activeId, Some(overId)).Moves? ==>
         DragEnd(allTasks, grouped, activeId, Some(overId)) == Moves([Move(activeId, target, CrossColumnOrder(column, FindIndex(column, overId)).value)]))
  {
    var target := FindTask(allTasks, overId).value.status;
    var column := SortByOrder(grouped.Bucket(target));
    var oi := FindIndex(column, overId);
    if oi >= 0 {
      assert column[oi] in column;
    }
  }

  /** A drop on a task moves only the dragged task or tasks of the target's
      column, each of those keeping its status, and throws only when the
      target is not in the column. */
  lemma DropOnTaskTouchesColumnOnly(active: Task, overTask: Task, column: seq<Task>)
    ensures DropOnTask(active, overTask, column).Moves? ==>
      forall m :: m in DropOnTask(active, overTask, column).moves ==>
        m.id == active.id || exists t :: t in column && t.id == m.id && t.status == m.status
    ensures overTask in column ==> DropOnTask(active, overTask, column).Moves?
  {
    var overIndex := FindIndex(column, overTask.id);
    var activeIndex := FindIndex(column, active.id);
    if active.status == overTask.status {
      if activeIndex != -1 && overIndex != -1 && activeIndex != overIndex {
        var reordered := ArrayMove(column, activeIndex, overIndex);
        ArrayMoveSpec(column, activeIndex, overIndex);
        SameColumnRenumbers(reordered);
        forall m | m in RenumberMoves(reordered, 0)
          ensures exists t :: t in column && t.id == m.id && t.status == m.status
        {
          var t :| t in reordered && m.id == t.id && m.status == t.status && m.order != t.order;
          assert t in multiset(reordered);
        }
      }
    } else if overTask in column {
      var j :| 0 <= j < |column| && column[j] == overTask;
      assert column[j].id == overTask.id;
    }
  }

  /** The sorted column of a status holds exactly the tasks of that status. */
  lemma SortedColumnMembers(visible: seq<Task>, s: Status)
    ensures forall t :: t in SortByOrder(Grouped(visible).Bucket(s)) <==> t in visible && t.status == s
  {
    var b := Grouped(visible).Bucket(s);
    GroupedPartition(visible);
    SortByOrderSpec(b);
    forall t ensures t in SortByOrder(b) <==> t in b {
      assert t in SortByOrder(b) <==> t in multiset(SortByOrder(b));
    }
  }

  /** With the board's grouping of the visible tasks, a drop only ever moves
      the dragged task or visible tasks, and never changes the status of a
      task other than the dragged one. */
  lemma DragEndTouchesVisibleOnly(allTasks: seq<Task>, visible: seq<Task>, activeId: string, over: Option<string>)
    ensures var outcome := DragEnd(allTasks, Grouped(visible), activeId, over);
      outcome.Moves? ==> forall m :: m in outcome.moves ==>
        m.id == activeId || exists t :: t in visible && t.id == m.id && t.status == m.status
  {
    var activeTask := FindTask(allTasks, activeId);
    if over.Some? && activeTask.Some? && StatusFromId(over.value).None? {
      var overTask := FindTask(allTasks, over.value);
      if overTask.Some? && overTask.value.id != activeId {
        var column := SortByOrder(Grouped(visible).Bucket(overTask.value.status));
        var outcome := DropOnTask(activeTask.value, overTask.value, column);
        assert DragEnd(allTasks, Grouped(visible), activeId, over) == outcome;
        SortedColumnMembers(visible, overTask.value.status);
        DropOnTaskTouchesColumnOnly(activeTask.value, overTask.value, column);
        assert activeTask.value.id == activeId;
        if outcome.Moves? {
          forall m | m in outcome.moves && m.id != activeId
            ensures exists t :: t in visible && t.id == m.id && t.status == m.status
          {
            var t :| t in column && t.id == m.id && t.status == m.status;
            assert t in visible;
          }
        }
      }
    }
  }

  /** A drop on a visible task never reads past its column. */
  lemma DragEndOnVisibleTask(allTasks: seq<Task>, visible: seq<Task>, activeId: string, over: Option<string>)
    requires over.Some? && FindTask(allTasks, over.value).Some? && FindTask(allTasks, over.value).value in visible
    ensures DragEnd(allTasks, Grouped(visible), activeId, over).Moves?
  {
    var activeTask := FindTask(allTasks, activeId);
    if activeTask.Some? && StatusFromId(over.value).None? {
      var overTask := FindTask(allTasks, over.value).value;
      if overTask.id != activeId {
        var column := SortByOrder(Grouped(visible).Bucket(overTask.status));
        SortedColumnMembers(visible, overTask.status);
        DropOnTaskTouchesColumnOnly(activeTask.value, overTask, column);
      }
    }
  }

  /** The same for the board itself, whose columns group the filtered tasks:
      tasks the filters hide are never moved, except the dragged one. */
  lemma DragEndUnderFilters(allTasks: seq<Task>, f: Filters, activeId: string, over: Option<string>)
    ensures var outcome := DragEnd(allTasks, Grouped(ApplyFilters(allTasks, f)), activeId, over);
      outcome.Moves? ==> forall m :: m in outcome.moves ==>
        m.id == activeId ||
        exists t :: t in allTasks && AssigneeOk(f, t) && TagOk(f, t) && PriorityOk(f, t)
          && QueryOk(f, t) && t.id == m.id && t.status == m.status
  {
    var visible := ApplyFilters(allTasks, f);
    DragEndTouchesVisibleOnly(allTasks, visible, activeId, over);
    ApplyFiltersSpec(allTasks, f);
  }
}
