# prello: the board's drag-and-drop reorder handler

prello is a Kanban-style organiser: a board holds an ordered row of lists, and
each list holds an ordered column of tasks. This project models `onDragEnd`, the
handler the board's drag-and-drop context calls when a drag ends, and proves
properties of it. The handler takes the drag library's drop result together
with the component's props, which are the board id, the order of list ids and
the lists by id. It then does one of four things:

- **Cancelled drag.** There is no destination, so it does nothing.
- **Dropped in place.** The destination is the same droppable at the same index, so it does nothing.
- **List drag (`type === 'LIST'`).** It copies the list order with `Array.from` and splices the copy. The list at the source index is removed, and the dragged id is inserted at the destination index. The new order is then sent with `updateListsOrderAndSendToServer(boardId, draggableId, newOrder)`.
- **Task drag.** Within one list, it does the same remove-then-insert on a copy of that list's `taskIds`. Across lists, it removes from a copy of the start list's ids and inserts into a copy of the finish list's ids. Both task branches build new list values but send nothing, because their `updateListTasks` calls are commented out.

Files:

- `array_splice.dfy` (module `ArraySplice`) covers the JavaScript array operations the handler uses. `JsArray` is a class whose `From` constructor is `Array.from` and whose `Splice` method splices the array in place. The pure functions `Spliced`, `RemoveAt` (`splice(i, 1)`), `InsertAt` (`splice(i, 0, x)`) and `Reordered` (remove, then insert) are the specification. The lemmas cover conservation of elements, round trips, undo, relative order and freedom from duplicates. Out-of-range indices are clamped the way `splice` clamps them, so no index precondition is needed.
- `lists_dnd.dfy` (module `ListsDnd`) holds the data model: `DropResult`, `ListProps`, `Props`, the outcome `DragOutcome` and the `ServerCall` that is issued. `Interpret` is the handler as a function. `OnDragEnd` is the handler as the component runs it, with early returns and `Array.from` copies spliced in place. It is proved to compute `Interpret`.
- `lists_dnd_properties.dfy` (module `ListsDndProperties`) holds the properties of each branch, the undo round trips and four worked scenarios.

The props are values, so the handler cannot change `order` or any list's `taskIds`. Every splice acts on a fresh `JsArray` made by `From`, which is exactly what the component's `Array.from` copies ensure.

## Model

| member | source | states |
|---|---|---|
| ArraySplice.Spliced | client/src/components/ListsDND/ListsDnd.tsx:57-62 | `splice(start, deleteCount, ...items)` keeps the part before the clamped start, places the items there, and closes up the rest behind them. The length changes by the number of items minus the number actually deleted. |
| ArraySplice.RemoveAt | client/src/components/ListsDND/ListsDnd.tsx:57 | `splice(i, 1)` with i in range drops exactly position i: one element shorter, prefix kept, suffix shifted left. With i past the end the array is unchanged. |
| ArraySplice.InsertAt | client/src/components/ListsDND/ListsDnd.tsx:58-62 | `splice(i, 0, x)` puts x at i, clamped to the length so that a larger index appends. The array grows by one and the elements before and after x keep their order. |
| ArraySplice.Clamp | client/src/components/ListsDND/ListsDnd.tsx:57-62 | The position at which `splice` acts is the start index, or the length when the start is past the end. |
| ArraySplice.DeletedCount | client/src/components/ListsDND/ListsDnd.tsx:57 | `splice` deletes the requested count, or fewer when the array ends first. It never deletes past the end. |
| ArraySplice.SplicedOut | client/src/components/ListsDND/ListsDnd.tsx:57 | The array that `splice` returns (ignored by the handler) is the stretch it deleted, starting at the clamped start. |
| ArraySplice.Reordered | client/src/components/ListsDND/ListsDnd.tsx:56-62 | `splice(from, 1)` followed by `splice(to, 0, x)` on the result. With `from` in range, the length is kept and x sits at `to`, clamped to the last position. With `from` past the end, nothing is removed and x is only inserted. |
| ArraySplice.SplicedConservesElements | client/src/components/ListsDND/ListsDnd.tsx:57-62 | `splice` neither creates nor loses elements: the new contents plus the returned removed elements equal the old contents plus the inserted items, as multisets. |
| ArraySplice.RemoveAtMultiset | client/src/components/ListsDND/ListsDnd.tsx:57 | Removing at an index in range loses exactly the element at that index. |
| ArraySplice.InsertAtMultiset | client/src/components/ListsDND/ListsDnd.tsx:58-62 | Inserting adds exactly the inserted element. |
| ArraySplice.RemoveInsertRoundTrip | client/src/components/ListsDND/ListsDnd.tsx:97-98 | Inserting x and then removing at the clamped insertion index gives back the original sequence. |
| ArraySplice.InsertRemoveRoundTrip | client/src/components/ListsDND/ListsDnd.tsx:90-91 | Removing the element at i and then inserting it again at i gives back the original sequence. |
| ArraySplice.ReorderedIsPermutation | client/src/components/ListsDND/ListsDnd.tsx:56-62 | Remove-then-insert of the element at `from` keeps the length and the multiset. The element ends at `to`, clamped to the last position. |
| ArraySplice.ReorderedKeepsOthersInOrder | client/src/components/ListsDND/ListsDnd.tsx:77-79 | Removing the moved element from the result gives the input with that element removed, so every other element keeps its relative order. |
| ArraySplice.ReorderedUndo | client/src/components/ListsDND/ListsDnd.tsx:56-62 | Moving an element from `from` to `to` and then back from `to` to `from` restores the sequence. |
| ArraySplice.RemoveAtKeepsDistinct | client/src/components/ListsDND/ListsDnd.tsx:90-91 | Removing from a duplicate-free sequence keeps it duplicate-free, and the removed element no longer occurs. |
| ArraySplice.InsertAtKeepsDistinct | client/src/components/ListsDND/ListsDnd.tsx:97-98 | Inserting an id that is not already present keeps a sequence duplicate-free. |
| ArraySplice.ReorderedKeepsDistinct | client/src/components/ListsDND/ListsDnd.tsx:56-62 | Remove-then-insert keeps a duplicate-free order duplicate-free. |
| ArraySplice.JsArray.From | client/src/components/ListsDND/ListsDnd.tsx:56 | `Array.from` yields a fresh array with the same contents as its source. |
| ArraySplice.JsArray.Splice | client/src/components/ListsDND/ListsDnd.tsx:57 | The in-place splice leaves the array holding `Spliced` of its old contents and returns the removed stretch. |
| ListsDnd.Interpret | client/src/components/ListsDND/ListsDnd.tsx:36-112 | The four-way classification, with both directions of each case. A drop is a no-op iff it has no destination or lands on its source. It is a list reorder iff it is a move of type `LIST`. A task move throws a TypeError iff either list is missing. A server call is issued iff the outcome is a list reorder, and then exactly one, carrying the board id, the dragged id and the new order. |
| ListsDnd.OnDragEnd | client/src/components/ListsDND/ListsDnd.tsx:36-112 | The handler's early returns, `Array.from` copies and in-place splices compute exactly `Interpret` of the props and the drop result. |
| ListsDndProperties.ListReorderKeepsLength | client/src/components/ListsDND/ListsDnd.tsx:55-62 | A list drag whose source index is in range keeps the number of lists, whatever id is dragged. |
| ListsDndProperties.ListReorderIsPermutation | client/src/components/ListsDND/ListsDnd.tsx:55-68 | When the dragged id is at the source index, the new order is a permutation of the old one with the dragged id at the destination index. The other lists keep their relative order, a duplicate-free order stays duplicate-free, and exactly one update is sent with board id, dragged id and new order. |
| ListsDndProperties.SameListReorderIsPermutation | client/src/components/ListsDND/ListsDnd.tsx:76-86 | A task drag within one list keeps the count and multiset of its task ids and puts the dragged id at the destination index. The other ids keep their order, every other field of the list is kept, and no call is sent. |
| ListsDndProperties.CrossListMoveShrinksAndGrows | client/src/components/ListsDND/ListsDnd.tsx:89-111 | In a move across lists, the start list loses exactly the element at the source index, and its remaining ids keep their order. The finish list grows by one, with the dragged id at the destination index and its other ids in order. All other fields of both lists are carried over, and no call is sent. |
| ListsDndProperties.MoveAcrossKeepsOwnershipExclusive | client/src/components/ListsDND/ListsDnd.tsx:90-98 | Suppose no id is in both sequences or twice in one. Removing the element at i from the first and inserting it into the second keeps this true. The element then occurs once, in the second only, and the two sequences together hold the same ids as before. |
| ListsDndProperties.CrossListMoveKeepsOwnershipExclusive | client/src/components/ListsDND/ListsDnd.tsx:89-102 | Suppose the dragged task sits at the source index and no task id is in both lists or twice in one. After the move this still holds. The task is gone from the start list, appears once in the finish list, and the two lists' ids together are unchanged. |
| ListsDndProperties.ListReorderUndo | client/src/components/ListsDND/ListsDnd.tsx:55-68 | Dragging the list back from the destination to the source, on the new order, restores the original order and sends it. |
| ListsDndProperties.SameListReorderUndo | client/src/components/ListsDND/ListsDnd.tsx:76-87 | Dragging the task back within its list, once the new list is installed, restores the original props. |
| ListsDndProperties.CrossListMoveUndo | client/src/components/ListsDND/ListsDnd.tsx:89-102 | Dragging the task back from the finish list to its old index in the start list, once both new lists are installed, restores the original props. |
| ListsDndProperties.ScenarioDragLastListToFront | client/src/components/ListsDND/ListsDnd.tsx:55-70 | Order [L1, L2, L3] with L3 dragged to index 0 becomes [L3, L1, L2], and that order is sent. |
| ListsDndProperties.ScenarioDragTaskDownWithinList | client/src/components/ListsDND/ListsDnd.tsx:76-87 | Tasks [T1, T2, T3] with T1 dragged from index 0 to 2 become [T2, T3, T1], and nothing is sent. |
| ListsDndProperties.ScenarioMoveTaskAcrossLists | client/src/components/ListsDND/ListsDnd.tsx:89-102 | Moving T2 from L1 [T1, T2, T3] to index 1 of L2 [T4, T5] leaves L1 as [T1, T3] and L2 as [T4, T2, T5]. |
| ListsDndProperties.ScenarioCancelledDrag | client/src/components/ListsDND/ListsDnd.tsx:44-46 | A drop with no destination is a no-op and sends nothing. |

## Left out

- The JSX render, the `useEffect` that loads the lists and resets them on unmount, the Redux thunks and the drag library itself are collaborators. The one call the handler makes, `updateListsOrderAndSendToServer`, appears only as a `ServerCall` value in the result. What it does on the client and the server is not modelled.
- The `updateListTasks` calls for both task branches are commented out in the component. The model therefore issues no call for a task drag. It also does not model persistence, rollback or partial-failure reporting for task moves, none of which the component implements.
- Negative `splice` indices are not modelled, because the drag library only reports indices from 0 upward. Indices past the end are clamped exactly as `splice` clamps them.
- At line 76 the component compares the start and finish lists by object identity. The model compares their droppable ids instead. The only difference would be two ids mapping to one list object, which the board's list map does not produce.
- `ListProps` has the id, the name and the task ids. components/List/List.tsx, which defines the full props, is not part of this model. Any other fields are carried over unchanged by the record update, the same way the spread `{...start, taskIds}` carries them.
- client/src/services/api.ts, server/src/lists/controller.py, server/src/boards/controller.py, client/src/components/FormLogin/FormLogin.tsx and client/src/routes/AuthorizedRoutes.tsx are not part of this model. They are HTTP plumbing, request handlers over a database the model cannot see, a login form and routing.
- A list drag removes whatever sits at `source.index` and inserts `draggableId`. The result is a permutation of the order only when those two are the same id, which the drag library guarantees and the permutation lemmas take as a precondition.
- `splice` clamps out-of-range indices rather than failing, so the model has no index error.
- Only list reorders are persisted. The component keeps no store of its own and has no rollback, so neither is modelled.
