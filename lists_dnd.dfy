/** The board's drag-and-drop handler (`onDragEnd` of the ListsDND component):
    it classifies a completed drag and computes the reordered list order or
    task ids. The only server call it makes is for a reorder of the lists;
    the calls for task moves are commented out in the component. */
module ListsDnd {
  import opened ArraySplice

  /** List, task, board and droppable ids are strings in the component. */
  type Id = string

  datatype Option<T> = None | Some(value: T)

  /** Where a draggable sits: a droppable and an index inside it. */
  datatype DraggableLocation = DraggableLocation(droppableId: Id, index: nat)

  /** What the drag library reports when a drag ends; `destination` is absent
      when the item was released outside every droppable. */
  datatype DropResult = DropResult(
    draggableId: Id,
    dragType: string,
    source: DraggableLocation,
    destination: Option<DraggableLocation>)

  /** The drag type of the board's horizontal droppable, whose items are lists. */
  const ListType: string := "LIST"

  /** A list as the component sees it. */
  datatype ListProps = ListProps(id: Id, name: string, taskIds: seq<Id>)

  /** The component's props that the handler reads: the board, the order of
      its lists, and the lists by id. */
  datatype Props = Props(boardId: Id, order: seq<Id>, lists: map<Id, ListProps>)

  /** A call to the server issued by the handler. */
  datatype ServerCall = UpdateListsOrder(boardId: Id, draggableId: Id, newOrder: seq<Id>)

  /** Which branch the handler took and what it computed. `TypeError` is the
      exception the handler throws when it reads `taskIds` of a list that is
      not in `lists`. */
  datatype DragOutcome =
    | NoOp
    | ListReorder(newOrder: seq<Id>)
    | SameListReorder(newList: ListProps)
    | CrossListMove(newStart: ListProps, newFinish: ListProps)
    | TypeError

  /** The outcome together with the server calls, in the order issued. */
  datatype Reaction = Reaction(outcome: DragOutcome, calls: seq<ServerCall>)

  /** A drop that lands somewhere other than where the drag started. */
  predicate IsMove(result: DropResult)
  {
    result.destination.Some? && result.destination.value != result.source
  }

  /** What `onDragEnd` does with a drop result: the four-way classification
      and, in each branch, the remove-then-insert on a copy of the order. */
  function Interpret(props: Props, result: DropResult): (r: Reaction)
    ensures r.outcome.NoOp? <==> !IsMove(result)
    ensures r.outcome.ListReorder? <==> IsMove(result) && result.dragType == ListType
    ensures r.outcome.TypeError? <==>
              IsMove(result) && result.dragType != ListType &&
              (result.source.droppableId !in props.lists ||
               result.destination.value.droppableId !in props.lists)
    ensures r.outcome.SameListReorder? ==>
              result.source.droppableId == result.destination.value.droppableId
    ensures r.outcome.CrossListMove? ==>
              result.source.droppableId != result.destination.value.droppableId
    ensures r.calls == if r.outcome.ListReorder?
                       then [UpdateListsOrder(props.boardId, result.draggableId, r.outcome.newOrder)]
                       else []
  {
    match result.destination
    case None => Reaction(NoOp, [])
    case Some(destination) =>
      var source := result.source;
      if destination.droppableId == source.droppableId && destination.index == source.index then
        Reaction(NoOp, [])
      else if result.dragType == ListType then
        var newOrder := Reordered(props.order, source.index, destination.index, result.draggableId);
        Reaction(ListReorder(newOrder), [UpdateListsOrder(props.boardId, result.draggableId, newOrder)])
      else if source.droppableId == destination.droppableId then
        if source.droppableId !in props.lists then
          Reaction(TypeError, [])
        else
          var start := props.lists[source.droppableId];
          var newTaskIds := Reordered(start.taskIds, source.index, destination.index, result.draggableId);
          Reaction(SameListReorder(start.(taskIds := newTaskIds)), [])
      else if source.droppableId !in props.lists || destination.droppableId !in props.lists then
        Reaction(TypeError, [])
      else
        var start := props.lists[source.droppableId];
        var finish := props.lists[destination.droppableId];
        var newStart := start.(taskIds := RemoveAt(start.taskIds, source.index));
        var newFinish := finish.(taskIds := InsertAt(finish.taskIds, destination.index, result.draggableId));
        Reaction(CrossListMove(newStart, newFinish), [])
  }

  /** The handler as the component runs it: early returns select the branch,
      and each branch copies an array with `Array.from` and splices the copy
      in place. */
  method OnDragEnd(props: Props, result: DropResult) returns (reaction: Reaction)
    ensures reaction == Interpret(props, result)
  {
    var destination, source, draggableId := result.destination, result.source, result.draggableId;

    if destination.None? {
      return Reaction(NoOp, []);
    }

    if destination.value.droppableId == source.droppableId && destination.value.index == source.index {
      return Reaction(NoOp, []);
    }

    if result.dragType == ListType {
      var newListOrder := new JsArray.From(props.order);
      var _ := newListOrder.Splice(source.index, 1, []);
      var _ := newListOrder.Splice(destination.value.index, 0, [draggableId]);
      return Reaction(
        ListReorder(newListOrder.elems),
        [UpdateListsOrder(props.boardId, draggableId, newListOrder.elems)]);
    }

    if source.droppableId !in props.lists {
      // `start.taskIds` of an undefined list
      return Reaction(TypeError, []);
    }
    var start := props.lists[source.droppableId];

    if source.droppableId == destination.value.droppableId {
      var newTaskIds := new JsArray.From(start.taskIds);
      var _ := newTaskIds.Splice(source.index, 1, []);
      var _ := newTaskIds.Splice(destination.value.index, 0, [draggableId]);
      var newList := start.(taskIds := newTaskIds.elems);
      return Reaction(SameListReorder(newList), []);
    }

    // moving from one list to another
    var startTaskIds := new JsArray.From(start.taskIds);
    var _ := startTaskIds.Splice(source.index, 1, []);
    var newStartList := start.(taskIds := startTaskIds.elems);

    if destination.value.droppableId !in props.lists {
      // `finish.taskIds` of an undefined list
      return Reaction(TypeError, []);
    }
    var finish := props.lists[destination.value.droppableId];
    var finishTaskIds := new JsArray.From(finish.taskIds);
    var _ := finishTaskIds.Splice(destination.value.index, 0, [draggableId]);
    var newFinishList := finish.(taskIds := finishTaskIds.elems);
    return Reaction(CrossListMove(newStartList, newFinishList), []);
  }
}
