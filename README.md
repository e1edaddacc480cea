# Kanban board: drag-and-drop engine, board store and list helpers

This project models the logic behind a React Kanban board component. The
board has two linked pieces of state:

- an ordered list of columns, where each column has an id, an ordered
  `taskIds` list and an optional `maxTasks` limit;
- a map from task id to task, where each task's `status` names the column
  that holds it.

Three parts of the component are modelled, and Dafny proves properties of
each.

- **Drag session and drop engine** (`useDragAndDrop.ts`). The class
  `DragAndDrop.DragController` holds the four-field drag session and a log
  of the `onTaskMove` calls. `handleDrop` has four possible outcomes:
  - `Ignored`: the payload is incomplete or a column is unknown;
  - `Rejected`: the target column is full;
  - a same-column reorder: filter the id out, then splice it back in at the
    hover index;
  - a cross-column move: filter the id out of the source, splice it into
    the target at the hover index or append it, then rewrite the task's
    `status`.

  The pure function `DragAndDrop.Drop` states this outcome. The methods
  `DropSteps`, `ReorderSteps` and `MoveSteps` follow the handler's steps
  and are proved equal to `Drop`.
- **Board store** (`useKanbanBoard.ts`). The class
  `KanbanBoard.BoardStore` holds:
  - the columns and the tasks;
  - the create/edit modal flags;
  - the two-phase delete state;
  - a log of the `onTaskDelete` calls.

  Keyboard moves behave as follows:
  - Up/Down swap the task with its neighbour in a copied array.
  - Left/Right move the task to the end of the adjacent column and rewrite
    its `status`. They do not check the column limit.

  `confirmDelete` drops the task from the map and from every column. The
  pure functions `KeyboardMove` and `DeleteTask` specify these operations.
- **List helpers** (`task.utils.ts`). The model covers `reorderTasks`,
  `moveTaskBetweenColumns`, `getInitials` and `getPriorityColor`.

The JavaScript array operations are modelled once, in `JsArray`:
- `splice` as `Insert` and `RemoveAt`;
- `filter` as `Without`;
- `indexOf` as `IndexOf`.

`SpliceStart` models `splice`'s treatment of its start argument:
- a negative start counts from the end;
- the position is clamped to the array;
- a `null` start acts as 0.

The model proves that a well-formed board stays well formed after:
- every keyboard move;
- every delete;
- every drop whose payload names the column that holds the task.

A drop whose payload names some other column can leave the task listed
twice. Well formed means:
- column ids are distinct;
- no id appears twice in one column or in two columns;
- every listed task's `status` is its column's id;
- every task in the map is listed in some column.

Where the behaviour here differs from a reading of the component's
documentation, the model follows the code:
- A same-column drop with no hover index puts the task at the **front**
  of its column, because `splice(null, 0, id)` starts at 0. The same drop
  reports a null index to `onTaskMove`.
- Keyboard moves do **not** call `onTaskMove`.
- `handleDrop` uses the session's hover index whatever column it was
  recorded for. It does not clear the session; `handleDragEnd` does.
- A same-column reorder in a column at its limit is rejected like any
  other drop into a full column.
- A limit of 0 is falsy and imposes no limit.
- A cross-column move of a task id that the task map does not hold adds
  an entry that has only a `status` (`Task.StatusOnly`).
- `reorderTasks` and `moveTaskBetweenColumns` with a start index past the
  end insert `undefined`. Their results are therefore sequences of
  `Option`.

## Model

| member | source | states |
|---|---|---|
| JsArray.SpliceStart | src/utils/task.utils.ts:46-47 | The splice position lies in [0, len]; an in-range start is kept and a start past the end gives len |
| JsArray.Insert | src/utils/task.utils.ts:47 | `splice(start, 0, x)` puts x at the clamped position, shifts the rest by one, keeps the prefix and adds exactly one x to the multiset |
| JsArray.RemoveAt | src/utils/task.utils.ts:46 | `splice(start, 1)` removes and returns the element at an in-range position and keeps the others in order; past the end it removes nothing and returns undefined |
| JsArray.Without | src/components/kanbanboard/useKanbanBoard.ts:85 | `filter(id => id !== x)` removes every x, keeps every other element, and the multiset loses exactly the copies of x |
| JsArray.WithoutAppend | src/components/kanbanboard/useKanbanBoard.ts:85 | Filtering distributes over concatenation |
| JsArray.WithoutAbsent | src/components/kanbanboard/useKanbanBoard.ts:84-86 | Filtering a list that does not hold x gives it back unchanged |
| JsArray.WithoutSingle | src/components/kanbanboard/useKanbanBoard.ts:85 | Filtering a single occurrence out of `p + [x] + q` leaves `p + q`, so the order is kept |
| JsArray.IndexOf | src/components/kanbanboard/useKanbanBoard.ts:102 | `indexOf` is -1 exactly when the element is absent, and otherwise gives its first position |
| JsArray.Swap | src/components/kanbanboard/useKanbanBoard.ts:105-115 | Exchanging two slots swaps those elements, keeps every other slot, and keeps the multiset |
| KanbanTypes.AtCapacity | src/components/kanbanboard/useDragAndDrop.ts:84 | `maxTasks && length >= maxTasks`: a missing or zero limit is never full and a negative limit always is. A positive limit is full exactly when the list has reached it |
| KanbanTypes.FindColumn | src/components/kanbanboard/useKanbanBoard.ts:97 | `findIndex` by id returns no column exactly when no column has that id, and otherwise the first column with it |
| KanbanTypes.SetStatus | src/components/kanbanboard/useKanbanBoard.ts:130-133 | `{...prev[id], status}` rewrites only that task's status. An absent id gets a status-only entry, and every other entry is unchanged |
| KanbanTypes.Relocated | src/components/kanbanboard/useDragAndDrop.ts:99-113 | Relocating a task changes only the `taskIds` of the columns |
| KanbanTypes.RearrangePreservesWellFormed | src/components/kanbanboard/useKanbanBoard.ts:157-159 | Replacing one column's list by a permutation of it keeps the board well formed |
| KanbanTypes.RelocatePreservesWellFormed | src/components/kanbanboard/useKanbanBoard.ts:117-155 | Taking a task out of one column and giving another column its list plus that task, with the status rewritten, keeps the board well formed |
| KanbanBoard.DropFromColumns | src/components/kanbanboard/useKanbanBoard.ts:82-88 | Every column keeps its place, with the task's id filtered out of its list |
| KanbanBoard.DeleteTask | src/components/kanbanboard/useKanbanBoard.ts:75-88 | The task map loses exactly that key, and every other entry is unchanged. Every column loses the id, keeps its other ids, and keeps its id, title, colour and limit. The column count is unchanged, and columns without the id are identical |
| KanbanBoard.DeleteKeepsOrder | src/components/kanbanboard/useKanbanBoard.ts:82-88 | A column listing the id once as `p + [id] + q` becomes `p + q` |
| KanbanBoard.DeletePreservesWellFormed | src/components/kanbanboard/useKanbanBoard.ts:75-88 | Deleting a task keeps a well-formed board well formed |
| KanbanBoard.SetTaskIds | src/components/kanbanboard/useKanbanBoard.ts:157-159 | With distinct column ids, the map replaces exactly the list of the column with that id |
| KanbanBoard.MoveToEnd | src/components/kanbanboard/useKanbanBoard.ts:120-128 | With distinct column ids, the source column loses the task, the neighbour gets it appended, and other columns are unchanged |
| KanbanBoard.Vertical | src/components/kanbanboard/useKanbanBoard.ts:105-115 | An Up/Down step keeps the list's length and multiset |
| KanbanBoard.KeyboardMove | src/components/kanbanboard/useKanbanBoard.ts:96-103 | An unknown column, or a task not in it, leaves the board unchanged. Any keyboard move keeps the column count and changes only lists |
| KanbanBoard.KeyboardVerticalMove | src/components/kanbanboard/useKanbanBoard.ts:105-115 | ArrowUp swaps the task with its predecessor and ArrowDown with its successor. At the top or bottom nothing changes. Only that column changes, its list stays a permutation, and no task changes |
| KanbanBoard.KeyboardHorizontalMove | src/components/kanbanboard/useKanbanBoard.ts:117-155 | ArrowLeft outside the first column, and ArrowRight outside the last, filter the task out of its column and append it to the neighbour. They rewrite only its status, to the neighbour's id |
| KanbanBoard.KeyboardNoMove | src/components/kanbanboard/useKanbanBoard.ts:157-159 | A non-arrow key, ArrowLeft in the first column and ArrowRight in the last all leave the board unchanged |
| KanbanBoard.KeyboardMoveIgnoresCapacity | src/components/kanbanboard/useKanbanBoard.ts:137-154 | ArrowRight into a column already at its limit of one still moves the task there, leaving two |
| KanbanBoard.KeyboardMovePreservesWellFormed | src/components/kanbanboard/useKanbanBoard.ts:96-160 | Every keyboard move keeps a well-formed board well formed |
| KanbanBoard.BoardStore.constructor | src/components/kanbanboard/useKanbanBoard.ts:50-68 | The store starts with the given board, the modal closed with no draft or active column, and no pending delete |
| KanbanBoard.BoardStore.OpenCreate | src/components/kanbanboard/useKanbanBoard.ts:54-58 | The active column is set, the draft is cleared and the modal opens |
| KanbanBoard.BoardStore.OpenEdit | src/components/kanbanboard/useKanbanBoard.ts:60-64 | The draft is the task, the active column is its status and the modal opens |
| KanbanBoard.BoardStore.SetModalOpen | src/components/kanbanboard/useKanbanBoard.ts:173 | The exposed setter changes only the modal flag |
| KanbanBoard.BoardStore.RequestDelete | src/components/kanbanboard/useKanbanBoard.ts:70-73 | The task is remembered and the confirmation opens |
| KanbanBoard.BoardStore.SetConfirmOpen | src/components/kanbanboard/useKanbanBoard.ts:180 | The exposed setter changes only the confirmation flag |
| KanbanBoard.BoardStore.ConfirmDelete | src/components/kanbanboard/useKanbanBoard.ts:75-93 | The new board is `DeleteTask` of the old one. `onTaskDelete` is logged once with the id, the confirmation closes, and the remembered task is cleared |
| KanbanBoard.BoardStore.HandleKeyboardMove | src/components/kanbanboard/useKanbanBoard.ts:96-160 | Swapping in a copied array, or moving to a neighbour, yields exactly `KeyboardMove` of the old board |
| DragAndDrop.HoverDefaults | src/components/kanbanboard/useDragAndDrop.ts:93-104 | With no hover index, a same-column drop inserts the task in front of every id (`splice(null)` starts at 0). A cross-column drop appends it (`hoverIndex ?? length`). With an in-range hover index, both insert at that position |
| DragAndDrop.FalsyPayloadIgnored | src/components/kanbanboard/useDragAndDrop.ts:75 | A missing or empty task id or source column id makes the drop a no-op, whatever the board |
| DragAndDrop.Drop | src/components/kanbanboard/useDragAndDrop.ts:68-120 | A drop is ignored exactly when the task or source id is falsy or a column is unknown. It is rejected exactly when it is not ignored and the target is full. A committed drop reports the payload's task, source and target, and changes only column lists |
| DragAndDrop.SameColumnDrop | src/components/kanbanboard/useDragAndDrop.ts:89-97 | A same-column drop takes the task out and puts it back at the hover index, or at the front when there is none. Only that column changes, no task changes, and the call reports the hover index |
| DragAndDrop.SameColumnDropPermutes | src/components/kanbanboard/useDragAndDrop.ts:91-93 | When the column lists the task once, its new list is a permutation of the old one |
| DragAndDrop.CrossColumnDrop | src/components/kanbanboard/useDragAndDrop.ts:99-120 | The task leaves the source. It enters the target at the hover index, or at the end when there is none. Only its status changes, to the target's id. The call reports the hover index or the new last position. A task listed once, and absent from the target, makes the source one shorter and the target one longer |
| DragAndDrop.DropRespectsCapacity | src/components/kanbanboard/useDragAndDrop.ts:83-87 | A committed drop never leaves a target with a nonzero limit holding more tasks than the limit |
| DragAndDrop.CrossColumnDropExample | src/components/kanbanboard/useDragAndDrop.ts:99-120 | Dropping `a` from `[a, b]` on an empty column at index 0 leaves `[b]` and `[a]`, gives `a` the new status and reports index 0 |
| DragAndDrop.DropPreservesWellFormed | src/components/kanbanboard/useDragAndDrop.ts:68-120 | A drop whose payload names the column holding the task keeps a well-formed board well formed |
| DragAndDrop.DropSteps | src/components/kanbanboard/useDragAndDrop.ts:68-90 | Copying, looking up, capacity-checking and branching step by step yields exactly `Drop` |
| DragAndDrop.ReorderSteps | src/components/kanbanboard/useDragAndDrop.ts:91-97 | Filtering and splicing the source column step by step yields exactly the same-column `Drop` |
| DragAndDrop.MoveSteps | src/components/kanbanboard/useDragAndDrop.ts:99-120 | Filtering the source, splicing the target and rewriting the status step by step yields exactly the cross-column `Drop` |
| DragAndDrop.DragController.constructor | src/components/kanbanboard/useDragAndDrop.ts:17-22 | The session starts with all four fields null and no move reported |
| DragAndDrop.DragController.HandleDragStart | src/components/kanbanboard/useDragAndDrop.ts:24-34 | Any earlier session is replaced by one with the task and source column and no hover index or target |
| DragAndDrop.DragController.HandleDragEnd | src/components/kanbanboard/useDragAndDrop.ts:43-50 | All four session fields are cleared, so a second call changes nothing |
| DragAndDrop.DragController.HandleDragOver | src/components/kanbanboard/useDragAndDrop.ts:52-66 | A full column, or no marked card under the pointer, leaves the session unchanged. Otherwise only the hover index and the target change |
| DragAndDrop.DragController.HandleDrop | src/components/kanbanboard/useDragAndDrop.ts:68-120 | The result is `Drop` of the old board with the session's hover index. Only a committed drop replaces the board and logs one `onTaskMove` call |
| TaskUtils.LiftRemoveAt | src/utils/task.utils.ts:46 | Taking one element out and putting it back gives the original multiset of slots |
| TaskUtils.ReorderTasks | src/utils/task.utils.ts:40-49 | On a copy, the element at the clamped start index, or `undefined` past the end, lands at the clamped end index. The length is kept when an element was taken, and grows by one otherwise |
| TaskUtils.ReorderTasksPermutes | src/utils/task.utils.ts:40-49 | For an in-range start index, the result has the input's length, no `undefined` slot, and is a permutation of the input |
| TaskUtils.ReorderTasksMoves | src/utils/task.utils.ts:45-48 | For in-range indices, the element from the start index ends at the end index and the others keep their order. Equal indices give back the input |
| TaskUtils.ReorderTasksOutOfRange | src/utils/task.utils.ts:46-47 | A start index past the end removes nothing and inserts `undefined` at the clamped end index |
| TaskUtils.MoveTaskBetweenColumns | src/utils/task.utils.ts:53-67 | The source loses one element when the index is in range. The destination is one longer, with the taken element, or `undefined`, at the clamped destination index |
| TaskUtils.MoveTaskBetweenColumnsMoves | src/utils/task.utils.ts:53-67 | For an in-range source index, the source loses exactly that element, with the others in order. The destination gains it at the clamped index and is otherwise unchanged. Together the two lists hold the same elements |
| TaskUtils.Split | src/utils/task.utils.ts:9 | `split(" ")` yields at least one piece, no piece holds a space, and joining the pieces with spaces gives back the string |
| TaskUtils.Heads | src/utils/task.utils.ts:10-11 | Taking `part[0]` of each piece and joining gives at most one character per piece, and exactly one when no piece is empty |
| TaskUtils.HeadsOfSplit | src/utils/task.utils.ts:9-11 | The first characters of the pieces are exactly the characters that start a word |
| TaskUtils.WordStartsEmpty | src/utils/task.utils.ts:9-11 | A name yields no word start exactly when it is all spaces |
| TaskUtils.UpperChar | src/utils/task.utils.ts:12 | A lower-case ASCII letter becomes its capital (code point minus 32). Every other character is unchanged, and the result is never a lower-case letter |
| TaskUtils.Upper | src/utils/task.utils.ts:12 | `toUpperCase` keeps the length and leaves no lower-case ASCII letter in the result |
| TaskUtils.UpperIdempotent | src/utils/task.utils.ts:12 | Upper-casing an upper-cased string changes nothing |
| TaskUtils.GetInitials | src/utils/task.utils.ts:7-14 | The initials are at most two characters |
| TaskUtils.GetInitialsSpec | src/utils/task.utils.ts:7-14 | The initials are the upper-cased first characters of the first two words, or fewer when there are fewer. They hold no lower-case ASCII letter, and are empty exactly when the name is blank |
| TaskUtils.GetPriorityColor | src/utils/task.utils.ts:18-26 | `low`, `high` and `urgent` get their own class strings. Exactly the other inputs, `medium` included, get the medium string |

## Left out

- localStorage persistence is left out: the `useState` initialisers, JSON parsing, `Date` rehydration and the `setItem` effects. The store starts from an already loaded board.
- DOM event plumbing becomes plain parameters: the payload `(taskId, fromColumnId)` and the hover marker. This covers `dataTransfer`, `closest("[data-index]")`, `preventDefault` and `effectAllowed`. A `data-index` that is not a non-negative integer (for example NaN) is not modelled.
- `alert` on a full target column is UI. The model records it as the `Rejected` outcome.
- `isOverdue` and `formatDate` depend on the wall clock and locale formatting. Dates are plain integers in `Task`.
- The rendering components, the modal and confirmation dialogs, and the Storybook stories are markup and event wiring. No create/save handler exists in the modelled hooks.
- DragAndDrop.DragController.HandleDrop: the source rewrites column objects that the previous state shares, in place. The model builds a new column list instead, so aliasing between the old and new state is not captured.
- React's asynchronous state updates (batched setters, stale closures over `columnState`) are not modelled. Each handler acts on the state current at the call.
- TaskUtils.GetInitials: strings are sequences of Unicode code points. JavaScript's `part[0]` and `.slice(0, 2)` work on UTF-16 code units, so a word starting outside the Basic Multilingual Plane gives a lone surrogate in the source but a whole character here.
- TaskUtils.ReorderTasks: indices are integers. JavaScript numbers that are fractional, NaN or infinite are not modelled; `splice` would truncate them and read NaN as 0. The same holds for TaskUtils.MoveTaskBetweenColumns.
- TaskUtils.UpperChar: `toUpperCase` is modelled for ASCII letters only. Full Unicode case mapping is not captured.
- TaskUtils.GetPriorityColor: inherited object keys such as `"toString"` are not modelled. In JavaScript they would index `Object.prototype`.
- KanbanTypes.AtCapacity: a fractional or NaN `maxTasks` is not modelled. Limits are integers, with 0 falsy.
- KanbanTypes.Column: `title` and `color` are carried but never inspected.
- The `onTaskMove` and `onTaskDelete` host callbacks are modelled as logs of calls (`moveCalls`, `deleteCalls`). Their effects are outside the component.
