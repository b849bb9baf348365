/** What the drag handler guarantees, stated over `Interpret`, the function
    that `OnDragEnd` is proved to compute. */
module ListsDndProperties {
  import opened ArraySplice
  import opened ListsDnd

  /** The drop that drags the same item straight back: source and destination swapped. */
  function Reverse(result: DropResult): (back: DropResult)
    requires result.destination.Some?
    ensures back.destination.Some? && back.destination.value == result.source
    ensures back.source == result.destination.value
    ensures back.draggableId == result.draggableId && back.dragType == result.dragType
  {
    result.(source := result.destination.value, destination := Some(result.source))
  }

  /** The props after the outcome of a drop has been installed: the new list
      order for a list reorder, the new lists (by droppable id) for a task move. */
  function Applied(props: Props, result: DropResult, outcome: DragOutcome): (after: Props)
    requires result.destination.Some?
    ensures after.boardId == props.boardId
    ensures outcome.ListReorder? ==> after.order == outcome.newOrder && after.lists == props.lists
    ensures outcome.SameListReorder? ==>
              after.order == props.order &&
              after.lists == props.lists[result.source.droppableId := outcome.newList]
    ensures outcome.CrossListMove? ==>
              after.order == props.order &&
              after.lists == props.lists[result.source.droppableId := outcome.newStart]
                                        [result.destination.value.droppableId := outcome.newFinish]
    ensures outcome.NoOp? || outcome.TypeError? ==> after == props
  {
    match outcome
    case ListReorder(newOrder) => props.(order := newOrder)
    case SameListReorder(newList) => props.(lists := props.lists[result.source.droppableId := newList])
    case CrossListMove(newStart, newFinish) =>
      props.(lists := props.lists[result.source.droppableId := newStart]
                                 [result.destination.value.droppableId := newFinish])
    case _ => props
  }

  /** A list drag whose source index is in range keeps the number of lists,
      whatever id is being dragged. */
  lemma ListReorderKeepsLength(props: Props, result: DropResult)
    requires IsMove(result) && result.dragType == ListType
    requires result.source.index < |props.order|
    ensures Interpret(props, result).outcome.ListReorder?
    ensures |Interpret(props, result).outcome.newOrder| == |props.order|
  {
  }

  /** A list drag of the list at the source index yields a permutation of the
      order with that list at the destination index (the last position when
      the index is past the end), keeps the other lists in their relative
      order and any order free of duplicates, and sends exactly one update
      carrying the board, the dragged id and the new order. */
  lemma ListReorderIsPermutation(props: Props, result: DropResult)
    requires IsMove(result) && result.dragType == ListType
    requires result.source.index < |props.order|
    requires props.order[result.source.index] == result.draggableId
    ensures var r := Interpret(props, result);
      && r.outcome.ListReorder?
      && |r.outcome.newOrder| == |props.order|
      && multiset(r.outcome.newOrder) == multiset(props.order)
      && r.outcome.newOrder[Clamp(result.destination.value.index, |props.order| - 1)] == result.draggableId
      && RemoveAt(r.outcome.newOrder, Clamp(result.destination.value.index, |props.order| - 1))
         == RemoveAt(props.order, result.source.index)
      && (Distinct(props.order) ==> Distinct(r.outcome.newOrder))
      && r.calls == [UpdateListsOrder(props.boardId, result.draggableId, r.outcome.newOrder)]
  {
    var s, i, j := props.order, result.source.index, result.destination.value.index;
    ReorderedIsPermutation(s, i, j);
    ReorderedKeepsOthersInOrder(s, i, j, s[i]);
    if Distinct(s) {
      ReorderedKeepsDistinct(s, i, j);
    }
  }

  /** A task drag within one list keeps the count and the multiset of its
      task ids, puts the dragged id at the destination index, keeps the other
      ids in their relative order, keeps every other field of the list, and
      sends nothing. */
  lemma SameListReorderIsPermutation(props: Props, result: DropResult)
    requires IsMove(result) && result.dragType != ListType
    requires result.source.droppableId == result.destination.value.droppableId
    requires result.source.droppableId in props.lists
    requires result.source.index < |props.lists[result.source.droppableId].taskIds|
    requires props.lists[result.source.droppableId].taskIds[result.source.index] == result.draggableId
    ensures var r := Interpret(props, result);
      var list := props.lists[result.source.droppableId];
      var p := Clamp(result.destination.value.index, |list.taskIds| - 1);
      && r.outcome.SameListReorder?
      && r.outcome.newList == list.(taskIds := r.outcome.newList.taskIds)
      && |r.outcome.newList.taskIds| == |list.taskIds|
      && multiset(r.outcome.newList.taskIds) == multiset(list.taskIds)
      && r.outcome.newList.taskIds[p] == result.draggableId
      && RemoveAt(r.outcome.newList.taskIds, p) == RemoveAt(list.taskIds, result.source.index)
      && (Distinct(list.taskIds) ==> Distinct(r.outcome.newList.taskIds))
      && r.calls == []
  {
    var s := props.lists[result.source.droppableId].taskIds;
    var i, j := result.source.index, result.destination.value.index;
    ReorderedIsPermutation(s, i, j);
    ReorderedKeepsOthersInOrder(s, i, j, s[i]);
    if Distinct(s) {
      ReorderedKeepsDistinct(s, i, j);
    }
  }

  /** A task drag from one list to another takes exactly the element at the
      source index out of the start list and puts the dragged id into the
      finish list at the destination index, leaving the finish list's other
      ids in order; every field other than the task ids is carried over, and
      nothing is sent. */
  lemma CrossListMoveShrinksAndGrows(props: Props, result: DropResult)
    requires IsMove(result) && result.dragType != ListType
    requires result.source.droppableId != result.destination.value.droppableId
    requires result.source.droppableId in props.lists
    requires result.destination.value.droppableId in props.lists
    requires result.source.index < |props.lists[result.source.droppableId].taskIds|
    ensures var r := Interpret(props, result);
      var start := props.lists[result.source.droppableId];
      var finish := props.lists[result.destination.value.droppableId];
      var p := Clamp(result.destination.value.index, |finish.taskIds|);
      && r.outcome.CrossListMove?
      && r.outcome.newStart == start.(taskIds := r.outcome.newStart.taskIds)
      && r.outcome.newFinish == finish.(taskIds := r.outcome.newFinish.taskIds)
      && |r.outcome.newStart.taskIds| == |start.taskIds| - 1
      && r.outcome.newStart.taskIds == RemoveAt(start.taskIds, result.source.index)
      && multiset(r.outcome.newStart.taskIds) + multiset{start.taskIds[result.source.index]}
         == multiset(start.taskIds)
      && |r.outcome.newFinish.taskIds| == |finish.taskIds| + 1
      && r.outcome.newFinish.taskIds[p] == result.draggableId
      && RemoveAt(r.outcome.newFinish.taskIds, p) == finish.taskIds
      && r.calls == []
  {
    var start := props.lists[result.source.droppableId];
    var finish := props.lists[result.destination.value.droppableId];
    RemoveAtMultiset(start.taskIds, result.source.index);
    RemoveInsertRoundTrip(finish.taskIds, result.destination.value.index, result.draggableId);
  }

  /** No task id is in two places at once. */
  predicate ExclusivelyOwned(a: seq<Id>, b: seq<Id>)
  {
    Distinct(a) && Distinct(b) && forall x :: x in a ==> x !in b
  }

  /** Taking the element at index i out of one list and inserting it into
      another keeps ownership exclusive and the two lists' elements together
      unchanged; the moved element ends up in the second list only, once. */
  lemma MoveAcrossKeepsOwnershipExclusive(start: seq<Id>, finish: seq<Id>, i: nat, j: nat)
    requires i < |start| && ExclusivelyOwned(start, finish)
    ensures var newStart := RemoveAt(start, i);
      var newFinish := InsertAt(finish, j, start[i]);
      && ExclusivelyOwned(newStart, newFinish)
      && start[i] !in newStart
      && multiset(newFinish)[start[i]] == 1
      && multiset(newStart) + multiset(newFinish) == multiset(start) + multiset(finish)
  {
    var x := start[i];
    var newStart := RemoveAt(start, i);
    var newFinish := InsertAt(finish, j, x);
    RemoveAtMultiset(start, i);
    InsertAtMultiset(finish, j, x);
    RemoveAtKeepsDistinct(start, i);
    InsertAtKeepsDistinct(finish, j, x);
    forall y | y in newStart ensures y !in newFinish {
      assert y in multiset(newStart);
      assert y in multiset(start);
      assert y in start;
    }
    assert x !in multiset(finish);
  }

  /** When the dragged task is the one at the source index and every task id
      is owned by exactly one of the two lists, a cross-list move keeps the
      two lists' tasks together unchanged and keeps ownership exclusive: the
      task leaves the start list and is in the finish list once. */
  lemma CrossListMoveKeepsOwnershipExclusive(props: Props, result: DropResult)
    requires IsMove(result) && result.dragType != ListType
    requires result.source.droppableId != result.destination.value.droppableId
    requires result.source.droppableId in props.lists
    requires result.destination.value.droppableId in props.lists
    requires result.source.index < |props.lists[result.source.droppableId].taskIds|
    requires props.lists[result.source.droppableId].taskIds[result.source.index] == result.draggableId
    requires ExclusivelyOwned(props.lists[result.source.droppableId].taskIds,
                              props.lists[result.destination.value.droppableId].taskIds)
    ensures var r := Interpret(props, result);
      var start := props.lists[result.source.droppableId];
      var finish := props.lists[result.destination.value.droppableId];
      && r.outcome.CrossListMove?
      && ExclusivelyOwned(r.outcome.newStart.taskIds, r.outcome.newFinish.taskIds)
      && result.draggableId !in r.outcome.newStart.taskIds
      && multiset(r.outcome.newFinish.taskIds)[result.draggableId] == 1
      && multiset(r.outcome.newStart.taskIds) + multiset(r.outcome.newFinish.taskIds)
         == multiset(start.taskIds) + multiset(finish.taskIds)
  {
    MoveAcrossKeepsOwnershipExclusive(
      props.lists[result.source.droppableId].taskIds,
      props.lists[result.destination.value.droppableId].taskIds,
      result.source.index, result.destination.value.index);
  }

  /** Dragging a list back from where a list drag put it restores the board's
      order, and that drag sends the restored order. */
  lemma ListReorderUndo(props: Props, result: DropResult)
    requires IsMove(result) && result.dragType == ListType
    requires result.source.index < |props.order|
    requires result.destination.value.index < |props.order|
    requires props.order[result.source.index] == result.draggableId
    ensures var r := Interpret(props, result);
      var back := Interpret(Applied(props, result, r.outcome), Reverse(result));
      && back.outcome == ListReorder(props.order)
      && back.calls == [UpdateListsOrder(props.boardId, result.draggableId, props.order)]
  {
    ReorderedUndo(props.order, result.source.index, result.destination.value.index);
  }

  /** Dragging a task back from where a same-list drag put it restores the list. */
  lemma SameListReorderUndo(props: Props, result: DropResult)
    requires IsMove(result) && result.dragType != ListType
    requires result.source.droppableId == result.destination.value.droppableId
    requires result.source.droppableId in props.lists
    requires result.source.index < |props.lists[result.source.droppableId].taskIds|
    requires result.destination.value.index < |props.lists[result.source.droppableId].taskIds|
    requires props.lists[result.source.droppableId].taskIds[result.source.index] == result.draggableId
    ensures var r := Interpret(props, result);
      var after := Applied(props, result, r.outcome);
      var back := Interpret(after, Reverse(result));
      && back.outcome.SameListReorder?
      && Applied(after, Reverse(result), back.outcome) == props
  {
    var id := result.source.droppableId;
    var list := props.lists[id];
    var i, j := result.source.index, result.destination.value.index;
    ReorderedUndo(list.taskIds, i, j);
    var moved := list.(taskIds := Reordered(list.taskIds, i, j, result.draggableId));
    assert Interpret(props, result).outcome == SameListReorder(moved);
    var after := props.(lists := props.lists[id := moved]);
    assert Applied(props, result, SameListReorder(moved)) == after;
    var back := Reverse(result);
    assert back.source == DraggableLocation(id, j);
    assert back.destination == Some(DraggableLocation(id, i));
    assert after.lists[id] == moved;
    assert Interpret(after, back).outcome == SameListReorder(list);
    assert Applied(after, back, SameListReorder(list)).lists == props.lists[id := moved][id := list];
    assert props.lists[id := moved][id := list] == props.lists;
  }

  /** Dragging a task back from the finish list to its old place in the start
      list restores both lists. */
  lemma CrossListMoveUndo(props: Props, result: DropResult)
    requires IsMove(result) && result.dragType != ListType
    requires result.source.droppableId != result.destination.value.droppableId
    requires result.source.droppableId in props.lists
    requires result.destination.value.droppableId in props.lists
    requires result.source.index < |props.lists[result.source.droppableId].taskIds|
    requires result.destination.value.index <= |props.lists[result.destination.value.droppableId].taskIds|
    requires props.lists[result.source.droppableId].taskIds[result.source.index] == result.draggableId
    ensures var r := Interpret(props, result);
      var after := Applied(props, result, r.outcome);
      var back := Interpret(after, Reverse(result));
      && back.outcome.CrossListMove?
      && Applied(after, Reverse(result), back.outcome) == props
  {
    var src, dst := result.source.droppableId, result.destination.value.droppableId;
    var start, finish := props.lists[src], props.lists[dst];
    var i, j := result.source.index, result.destination.value.index;
    RemoveInsertRoundTrip(finish.taskIds, j, result.draggableId);
    InsertRemoveRoundTrip(start.taskIds, i);
    var r := Interpret(props, result);
    var after := Applied(props, result, r.outcome);
    assert after.lists[src] == r.outcome.newStart && after.lists[dst] == r.outcome.newFinish;
    var back := Interpret(after, Reverse(result));
    assert back.outcome.newStart == finish;
    assert back.outcome.newFinish == start;
    assert props.lists[src := start][dst := finish] == props.lists;
  }

  /** Lists [L1, L2, L3]; dragging L3 to index 0 gives [L3, L1, L2] and sends it. */
  lemma ScenarioDragLastListToFront()
    ensures var props := Props("b1", ["L1", "L2", "L3"], map[]);
      var result := DropResult("L3", ListType, DraggableLocation("board", 2),
                               Some(DraggableLocation("board", 0)));
      Interpret(props, result)
      == Reaction(ListReorder(["L3", "L1", "L2"]), [UpdateListsOrder("b1", "L3", ["L3", "L1", "L2"])])
  {
    var s: seq<Id> := ["L1", "L2", "L3"];
    var removed := RemoveAt(s, 2);
    assert removed == removed[..2] && s[..2] == ["L1", "L2"];
    var inserted := InsertAt(removed, 0, "L3");
    assert inserted == [inserted[0]] + inserted[1..];
    assert inserted == ["L3", "L1", "L2"];
  }

  /** List L1 holds [T1, T2, T3]; dragging T1 from index 0 to 2 gives [T2, T3, T1]. */
  lemma ScenarioDragTaskDownWithinList()
    ensures var l1 := ListProps("L1", "To do", ["T1", "T2", "T3"]);
      var props := Props("b1", ["L1"], map["L1" := l1]);
      var result := DropResult("T1", "DEFAULT", DraggableLocation("L1", 0),
                               Some(DraggableLocation("L1", 2)));
      Interpret(props, result) == Reaction(SameListReorder(l1.(taskIds := ["T2", "T3", "T1"])), [])
  {
    var s: seq<Id> := ["T1", "T2", "T3"];
    assert "DEFAULT" != ListType;
    var removed := RemoveAt(s, 0);
    assert removed == s[1..] == ["T2", "T3"];
    var inserted := InsertAt(removed, 2, "T1");
    assert inserted == inserted[..2] + [inserted[2]];
    assert inserted == ["T2", "T3", "T1"];
  }

  /** Moving T2 from L1 [T1, T2, T3] to L2 [T4, T5] at index 1 leaves L1 as
      [T1, T3] and L2 as [T4, T2, T5]. */
  lemma ScenarioMoveTaskAcrossLists()
    ensures var l1 := ListProps("L1", "To do", ["T1", "T2", "T3"]);
      var l2 := ListProps("L2", "Done", ["T4", "T5"]);
      var props := Props("b1", ["L1", "L2"], map["L1" := l1, "L2" := l2]);
      var result := DropResult("T2", "DEFAULT", DraggableLocation("L1", 1),
                               Some(DraggableLocation("L2", 1)));
      Interpret(props, result)
      == Reaction(CrossListMove(l1.(taskIds := ["T1", "T3"]), l2.(taskIds := ["T4", "T2", "T5"])), [])
  {
    var l1 := ListProps("L1", "To do", ["T1", "T2", "T3"]);
    var l2 := ListProps("L2", "Done", ["T4", "T5"]);
    var lists := map["L1" := l1, "L2" := l2];
    assert "L1" != "L2";
    assert "L1" in lists && lists["L1"] == l1;
    assert "L2" in lists && lists["L2"] == l2;
    assert "DEFAULT" != ListType;
    var removed := RemoveAt(l1.taskIds, 1);
    assert removed == l1.taskIds[..1] + l1.taskIds[2..] == ["T1", "T3"];
    var inserted := InsertAt(l2.taskIds, 1, "T2");
    assert inserted == inserted[..1] + [inserted[1]] + inserted[2..];
    assert inserted == ["T4", "T2", "T5"];
  }

  /** A drag released outside every droppable changes nothing and sends nothing. */
  lemma ScenarioCancelledDrag(props: Props, id: Id, dragType: string, source: DraggableLocation)
    ensures var result := DropResult(id, dragType, source, None);
      Interpret(props, result) == Reaction(NoOp, [])
  {
  }
}
