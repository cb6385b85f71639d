# Weekly planner: drag-and-drop state transitions

This project models the state logic of a browser weekly planner. The planner has a pool of unscheduled to-do
items and a list of schedule days, and the user moves items around by drag and drop. The React handlers of
`TodoList` (the pool, the "edit" and "delete" drop targets, the text field that adds items) and of
`ScheduleList` (the drop handler shared by all days) are modelled as pure functions from
`(pool, days, event)` to a new `(pool, days)`. Lemmas state what each transition promises:

- membership: where the id is after the drop;
- order: the other items keep their relative order (`SameOthers`: equal once the id is filtered out);
- "nothing else changes": day count, day labels and untouched days;
- idempotence of repeated drops;
- the planner-wide invariant that no id occurs more than once in the pool and all days together.

Files and modules:

- `todos.dfy`, module `Todos`: `Todo`, `ScheduleDay`, `PlannerState`, and the list operations the handlers use.
  These are `some` by id (`HasId`), `filter` by id (`RemoveId`) and the `map` that filters every day
  (`RemoveFromDays`). The module also defines counting functions with their lemmas.
- `text.dfy`, module `Text`: JavaScript's `String.prototype.trim`, using the ECMAScript WhiteSpace and
  LineTerminator code points.
- `todo_list.dfy`, module `TodoList`: `handleAddTodo`, the pool, edit and delete drop handlers, and the
  `isOverEdit`/`isOverDelete` hover flags.
- `schedule_list.dfy`, module `ScheduleList`: `findIndex` over the days and `handleDrop`. Each `ScheduleDay`
  drop target calls `handleDrop` with its own position; here that position is the `index` parameter.
- `planner.dfy`, module `Planner`: the invariant across all handlers. It treats `onTodoMove(id)` as
  "filter the id out of the pool" and covers any admissible run of events.

Inputs from the environment are parameters:

- `monitor.didDrop()` is the boolean `didDrop`.
- `monitor.isOver()` is the `isOver` of a `Hover` event.
- `Date.now().toString()` is `freshId`.
- `onTodoMove` is the `moved` field of `HandleDrop`'s result. It names the id passed to the callback.

Notes on what the code does:

- The stored text of a new item is the input as typed, not the trimmed input. Only the blank test trims
  (src/components/todo-list.tsx:34-35).
- A drop on a day whose item is not scheduled anywhere does not itself remove the item from the pool. It calls
  `onTodoMove(id)`, and the parent's implementation of that callback is not part of this model. `HandleDrop`
  only reports the call. `Planner.DropOnDay` adds the removal from the pool as an explicit assumption.
- The same-day no-op tests whether the FIRST day holding the id (`findIndex`) is the target. It does not test
  whether the target holds the id. The two tests agree when the dropped id occurs at most once across all days.
  `HandleDropIdempotent`, `DropCountInDays` and `CrossDayMoveKeepsTotal` require exactly that. The condition
  concerns only the dropped id, not every id, and it counts copies, so two copies in one day break it too.
- The code works with a schedule of any number of days. The model allows any number and proves
  that every transition keeps the count and the labels.
- The edit drop handler does not check `didDrop`. Only the pool's handler does.

## Model

| member | source | states |
|---|---|---|
| Todos.RemoveId | src/components/todo-list.tsx:109 | the filtered list is no longer than the input and has no item with the id; an item is kept exactly when it was in the input and has a different id |
| Todos.RemoveIdAppend | src/components/todo-list.tsx:57 | filtering distributes over concatenation, so the kept items stay in their original relative order |
| Todos.RemoveIdLength | src/components/todo-list.tsx:109 | filtering removes exactly as many items as carried the id |
| Todos.CountRemoveId | src/components/todo-list.tsx:57 | after filtering, the id occurs zero times and every other id as often as before |
| Todos.RemoveIdAbsent | src/components/todo-list.tsx:57 | filtering an id the list does not hold returns the list unchanged |
| Todos.RemoveIdIdempotent | src/components/todo-list.tsx:57 | filtering twice by the same id is the same as filtering once |
| Todos.AppendSameOthers | src/components/todo-list.tsx:52 | appending an item leaves the other ids' items, in order, as they were |
| Todos.RemoveFromDays | src/components/todo-list.tsx:54-59 | filtering every day leaves the id in no day, keeps the day count and each day's date and dayOfWeek, and keeps the other items of each day in order |
| Todos.CountRemoveFromDays | src/components/todo-list.tsx:54-59 | after filtering every day, the id occurs nowhere in the schedule and every other id as often as before |
| Todos.RemoveFromDaysAbsent | src/components/todo-list.tsx:54-59 | filtering every day by an id no day holds returns the schedule unchanged |
| Todos.HasIdIffCount | src/components/todo-list.tsx:50 | `some` by id succeeds exactly when the id's count in the list is positive |
| Todos.DaysHoldIffCount | src/components/schedule-list.tsx:63-65 | some day holds the id exactly when its count across all days is positive |
| Todos.CountInDaysUpdate | src/components/schedule-list.tsx:72-75 | replacing one day's items changes the id's count across days by exactly that day's difference |
| Todos.ItemsInDaysUpdate | src/components/schedule-list.tsx:72-75 | replacing one day's items changes the schedule's total item count by exactly that day's difference |
| Text.TrimStart | src/components/todo-list.tsx:34 | the result is the suffix of the input starting at its first non-whitespace character; everything cut is whitespace or a line terminator |
| Text.TrimEnd | src/components/todo-list.tsx:34 | the result is the prefix of the input ending at its last non-whitespace character; everything cut is whitespace or a line terminator |
| Text.Trim | src/components/todo-list.tsx:34 | `trim()` returns a contiguous piece of the input with no whitespace or line terminator at either end, and everything cut before and after it is whitespace or a line terminator |
| Text.TrimEmptyIff | src/components/todo-list.tsx:34 | `trim()` returns the empty string exactly when every character is whitespace or a line terminator |
| TodoList.AddTodo | src/components/todo-list.tsx:33-38 | blank input leaves the pool and the field unchanged; other input is appended once, untrimmed and with the fresh id, at the end of the pool, earlier items stay as they were, and the field is cleared |
| TodoList.AppendAbsent | src/components/todo-list.tsx:50-52 | appending an item whose id the pool lacks leaves exactly one item with that id |
| TodoList.DropOnPool | src/components/todo-list.tsx:43-61 | a drop already handled by a nested target, or of an id already in the pool, changes nothing; otherwise the item is appended once at the end of the pool, is left in no day, and the days, their labels and the other items' order are kept |
| TodoList.DropOnEdit | src/components/todo-list.tsx:74-92 | after an edit drop the id is in no day and is in the pool, appended only when it was absent, so it is never duplicated; the other items keep their places and order |
| TodoList.DropOnDelete | src/components/todo-list.tsx:105-116 | after a delete drop the id is neither in the pool nor in any day; every other item keeps its list and its order |
| TodoList.DropOnPoolIdempotent | src/components/todo-list.tsx:43-61 | repeating the same pool drop changes nothing more |
| TodoList.DropOnEditIdempotent | src/components/todo-list.tsx:74-92 | repeating the same edit drop changes nothing more |
| TodoList.DropOnDeleteIdempotent | src/components/todo-list.tsx:105-116 | repeating the same delete drop changes nothing more |
| TodoList.DeleteScheduled | src/components/todo-list.tsx:109-115 | an item scheduled on a day and then deleted is gone from that day, which gets shorter, and is not moved into the pool, which shrinks by exactly its own copies of the id |
| TodoList.FlagStep | src/components/todo-list.tsx:70-75 | a hover sets the target's flag to the reported hover status, a drop or a mouse leave clears it, and the other target's flag is untouched |
| TodoList.RunFlagsLatest | src/components/todo-list.tsx:101-106 | after any sequence of events, a target's flag is true exactly when the latest event aimed at it was a hover reporting the pointer over it |
| TodoList.HighlightNeedsHover | src/components/todo-list.tsx:29-30 | starting from both flags false, a target is highlighted only if a hover over it was reported |
| ScheduleList.FindDayIndex | src/components/schedule-list.tsx:63-65 | the result is -1 exactly when no day holds the id; otherwise it is the first day, by index, that holds it |
| ScheduleList.HandleDrop | src/components/schedule-list.tsx:61-84 | day count and labels are kept and the target day holds the id afterwards; dropping on the first day holding the id changes nothing; a move from another day filters the id out of that day and appends the item to the target, leaving every other day unchanged; an unscheduled item triggers `onTodoMove(id)`, and only it does, and is appended to the target |
| ScheduleList.DropItemCount | src/components/schedule-list.tsx:69-80 | the item total across days is kept by a same-day drop, grows by one for an item from the pool, and changes by one minus the filtered copies for a cross-day move |
| ScheduleList.CrossDayMoveKeepsTotal | src/components/schedule-list.tsx:71-76 | when the dropped id occurs at most once across all days, a cross-day move keeps the total item count |
| ScheduleList.DropCountInDays | src/components/schedule-list.tsx:67-80 | when the dropped id occurs at most once across all days, after the drop it occurs exactly once, in the target day, and every other id's count across days is unchanged |
| ScheduleList.HandleDropIdempotent | src/components/schedule-list.tsx:69-71 | when the dropped id occurs at most once across all days, repeating the same day drop changes nothing and does not call `onTodoMove` |
| Planner.AddItem | src/components/todo-list.tsx:33-38 | adding leaves the days alone; blank text leaves the state unchanged, other text appends the new item to the pool |
| Planner.DropOnDay | src/components/schedule-list.tsx:78-79 | with `onTodoMove` removing the id from the pool, a day drop keeps the days' labels and puts the id in the target day; a move between days leaves the pool alone, and an item from the pool leaves it |
| Planner.AddItemKeepsAtMostOnce | src/components/todo-list.tsx:35 | adding an item with an id used nowhere keeps every id at most once across pool and days |
| Planner.DropOnPoolKeepsAtMostOnce | src/components/todo-list.tsx:50-59 | a pool drop keeps every id at most once across pool and days |
| Planner.DropOnEditKeepsAtMostOnce | src/components/todo-list.tsx:80-91 | an edit drop keeps every id at most once across pool and days |
| Planner.DropOnDeleteKeepsAtMostOnce | src/components/todo-list.tsx:109-115 | a delete drop keeps every id at most once across pool and days |
| Planner.DropOnDayKeepsAtMostOnce | src/components/schedule-list.tsx:63-80 | with `onTodoMove` removing the id from the pool, a day drop keeps every id at most once; afterwards the dropped id occurs exactly once, not in the pool |
| Planner.Step | src/components/todo-list.tsx:33-116 | every handler keeps the number of days and each day's date and dayOfWeek |
| Planner.StepKeepsAtMostOnce | src/components/todo-list.tsx:33-116 | every admissible event keeps every id at most once across pool and days |
| Planner.RunKeepsAtMostOnce | src/components/todo-list.tsx:33-116 | any admissible sequence of adds and drops, started without duplicates, never duplicates an id |
| Planner.RunKeepsHeaders | src/components/schedule-list.tsx:67-82 | any admissible sequence of events keeps the number of days and each day's labels |

## Left out

- JSX rendering, `clsx` class choice, the NextUI components and the icons. They are presentation only.
- react-dnd internals. The `accept: "TODO_CARD"` filtering, event dispatch, `monitor.isOver()` and
  `monitor.didDrop()` are inputs: `isOver` and `didDrop`.
- `Date.now()` id generation. The id is the `freshId` parameter. `Planner.Admissible` requires it to be unused,
  because two adds in the same millisecond would collide.
- The `console.log` in the edit handler. It is a diagnostic only.
- The drag payload. `TodoCard` sends `{ id }` only (src/components/todo-card.tsx:13). The pool and edit
  handlers build a new `{ id: item.id, text: item.text }` (src/components/todo-list.tsx:52, 90), and
  `handleDrop` pushes `item` itself into the target day (src/components/schedule-list.tsx:75, 79). In both
  cases the stored text is undefined at run time. The model takes the handler's declared parameter
  `{ id, text }` as given and does not reconstruct the text.
- Stale closures and React batching. The pool and edit handlers test `todos.some` against the rendered
  snapshot, but they update the pool through `prev`. `handleDrop` pushes into arrays shared with the previous
  state, and React may run an updater twice in development. Each transition here acts on one consistent state.
- The parent component that owns the state and implements `onTodoMove`. src/pages/index.tsx renders
  `TodoList` without props, so this wiring is not part of this model. `Planner.DropOnDay` assumes the callback
  filters the id out of the pool.
- Planner.DropOnDay: states the pool-side effect only under that assumed `onTodoMove`. It is not a property of
  the visible code.
- Reordering within a list by pointer position, local-storage persistence and the ISO-week rollover. None of
  these appears in the modelled files.
- The mouse position and timing of hover events. A hover event carries only the reported `isOver`.
- ScheduleList.HandleDropIdempotent: proved only when the dropped id occurs at most once across all days. If a
  second day also held the id, the first drop could leave that copy in place, and a repeat drop would then move
  it.
- ScheduleList.CrossDayMoveKeepsTotal: proved only when the dropped id occurs at most once across all days.
  Two copies in the source day are both filtered out and only one item is appended. `DropItemCount` gives the
  general change.
