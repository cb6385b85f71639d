/** The planner as a whole: the pool and the schedule changed only through the
    handlers of `TodoList` and `ScheduleList`, and the invariant they keep
    together — every id occurs at most once across the pool and all days.

    The parent that owns the state and implements `onTodoMove` is not part of
    this model; `DropOnDay` assumes the parent answers `onTodoMove(id)` by
    filtering the id out of the pool.
 */
module Planner {
  import opened Todos
  import opened TodoList
  import opened ScheduleList
  import Text

  /** Number of items with id `x` in the pool and in all days together. */
  function Occurrences(s: PlannerState, x: string): nat {
    CountId(s.pool, x) + CountInDays(s.days, x)
  }

  /** No id is duplicated, neither within one list nor across lists. */
  ghost predicate AtMostOnce(s: PlannerState) {
    forall x :: Occurrences(s, x) <= 1
  }

  /** Adding an item through the text field; the field itself is not part of
      the planner state. */
  function AddItem(s: PlannerState, input: string, freshId: string): (r: PlannerState)
    ensures r.days == s.days
    ensures Text.AllTrimmable(input) ==> r == s
    ensures !Text.AllTrimmable(input) ==> r.pool == s.pool + [Todo(freshId, input)]
  {
    PlannerState(AddTodo(s.pool, input, freshId).todos, s.days)
  }

  /** A drop on day `index`: `handleDrop`, with `onTodoMove(id)` answered by
      filtering the id out of the pool. */
  function DropOnDay(s: PlannerState, index: int, item: Todo): (r: PlannerState)
    requires 0 <= index < |s.days|
    ensures SameHeaders(r.days, s.days)
    ensures HasId(r.days[index].todos, item.id)
    ensures DaysHold(s.days, item.id) ==> r.pool == s.pool
    ensures !DaysHold(s.days, item.id) ==> !HasId(r.pool, item.id) && SameOthers(r.pool, s.pool, item.id)
  {
    var o := HandleDrop(s.days, index, item);
    match o.moved
    case Some(id) =>
      RemoveIdIdempotent(s.pool, id);
      PlannerState(RemoveId(s.pool, id), o.days)
    case None => PlannerState(s.pool, o.days)
  }

  // ---------------------------------------------------------------------
  // Each transition keeps the at-most-once invariant
  // ---------------------------------------------------------------------

  /** An item with an id found nowhere keeps the invariant. */
  lemma AddItemKeepsAtMostOnce(s: PlannerState, input: string, freshId: string)
    requires AtMostOnce(s)
    requires Occurrences(s, freshId) == 0
    ensures AtMostOnce(AddItem(s, input, freshId))
  {
    var r := AddItem(s, input, freshId);
    if r.pool != s.pool {
      assert r.pool == s.pool + [Todo(freshId, input)];
      forall x ensures Occurrences(r, x) <= 1 {
        CountAppend(s.pool, [Todo(freshId, input)], x);
        assert Occurrences(s, x) <= 1;
      }
    }
  }

  lemma DropOnPoolKeepsAtMostOnce(s: PlannerState, didDrop: bool, item: Todo)
    requires AtMostOnce(s)
    ensures AtMostOnce(DropOnPool(s, didDrop, item))
  {
    var r := DropOnPool(s, didDrop, item);
    if !didDrop && !HasId(s.pool, item.id) {
      forall x ensures Occurrences(r, x) <= 1 {
        CountAppend(s.pool, [item], x);
        CountRemoveFromDays(s.days, item.id, x);
        HasIdIffCount(s.pool, item.id);
        assert Occurrences(s, x) <= 1;
      }
    }
  }

  lemma DropOnEditKeepsAtMostOnce(s: PlannerState, item: Todo)
    requires AtMostOnce(s)
    ensures AtMostOnce(DropOnEdit(s, item))
  {
    var r := DropOnEdit(s, item);
    forall x ensures Occurrences(r, x) <= 1 {
      CountRemoveFromDays(s.days, item.id, x);
      assert Occurrences(s, x) <= 1;
      if !HasId(s.pool, item.id) {
        CountAppend(s.pool, [item], x);
        HasIdIffCount(s.pool, item.id);
      }
    }
  }

  lemma DropOnDeleteKeepsAtMostOnce(s: PlannerState, id: string)
    requires AtMostOnce(s)
    ensures AtMostOnce(DropOnDelete(s, id))
  {
    var r := DropOnDelete(s, id);
    forall x ensures Occurrences(r, x) <= 1 {
      CountRemoveFromDays(s.days, id, x);
      CountRemoveId(s.pool, id, x);
      assert Occurrences(s, x) <= 1;
    }
  }

  /** A day drop keeps the invariant, and afterwards the target day holds
      the only copy of the id. */
  lemma DropOnDayKeepsAtMostOnce(s: PlannerState, index: int, item: Todo)
    requires AtMostOnce(s)
    requires 0 <= index < |s.days|
    ensures var r := DropOnDay(s, index, item);
      && AtMostOnce(r)
      && Occurrences(r, item.id) == 1
      && !HasId(r.pool, item.id)
  {
    var r := DropOnDay(s, index, item);
    var id := item.id;
    assert Occurrences(s, id) <= 1;
    DaysHoldIffCount(s.days, id);
    HasIdIffCount(s.pool, id);
    forall x ensures Occurrences(r, x) == (if x == id then 1 else Occurrences(s, x)) {
      DropCountInDays(s.days, index, item, x);
      CountRemoveId(s.pool, id, x);
    }
    forall x ensures Occurrences(r, x) <= 1 {
      assert Occurrences(s, x) <= 1;
    }
  }

  // ---------------------------------------------------------------------
  // Any run of events keeps the invariant
  // ---------------------------------------------------------------------

  /** One user action, as delivered to the handler that owns it. */
  datatype Event =
    | Add(input: string, freshId: string)
    | PoolDrop(didDrop: bool, item: Todo)
    | EditDrop(item: Todo)
    | DeleteDrop(id: string)
    | DayDrop(index: int, item: Todo)

  /** What an event needs of the state it meets: a day drop names an existing
      day, and `Date.now()` produced an id not already in use. */
  predicate Admissible(s: PlannerState, ev: Event) {
    match ev
    case Add(_, freshId) => Occurrences(s, freshId) == 0
    case DayDrop(index, _) => 0 <= index < |s.days|
    case _ => true
  }

  function Step(s: PlannerState, ev: Event): (r: PlannerState)
    requires Admissible(s, ev)
    ensures SameHeaders(r.days, s.days)
  {
    match ev
    case Add(input, freshId) => AddItem(s, input, freshId)
    case PoolDrop(didDrop, item) => DropOnPool(s, didDrop, item)
    case EditDrop(item) => DropOnEdit(s, item)
    case DeleteDrop(id) => DropOnDelete(s, id)
    case DayDrop(index, item) => DropOnDay(s, index, item)
  }

  /** Every event of `evs` is admissible in the state it meets. */
  predicate AdmissibleRun(s: PlannerState, evs: seq<Event>)
    decreases |evs|
  {
    |evs| == 0 || (Admissible(s, evs[0]) && AdmissibleRun(Step(s, evs[0]), evs[1..]))
  }

  function Run(s: PlannerState, evs: seq<Event>): PlannerState
    requires AdmissibleRun(s, evs)
    decreases |evs|
  {
    if |evs| == 0 then s else Run(Step(s, evs[0]), evs[1..])
  }

  lemma StepKeepsAtMostOnce(s: PlannerState, ev: Event)
    requires AtMostOnce(s) && Admissible(s, ev)
    ensures AtMostOnce(Step(s, ev))
  {
    match ev
    case Add(input, freshId) => AddItemKeepsAtMostOnce(s, input, freshId);
    case PoolDrop(didDrop, item) => DropOnPoolKeepsAtMostOnce(s, didDrop, item);
    case EditDrop(item) => DropOnEditKeepsAtMostOnce(s, item);
    case DeleteDrop(id) => DropOnDeleteKeepsAtMostOnce(s, id);
    case DayDrop(index, item) => DropOnDayKeepsAtMostOnce(s, index, item);
  }

  /** Starting from a state without duplicates, no sequence of adds and drops
      ever duplicates an id. */
  lemma {:induction false} RunKeepsAtMostOnce(s: PlannerState, evs: seq<Event>)
    requires AtMostOnce(s) && AdmissibleRun(s, evs)
    ensures AtMostOnce(Run(s, evs))
    decreases |evs|
  {
    if |evs| > 0 {
      StepKeepsAtMostOnce(s, evs[0]);
      RunKeepsAtMostOnce(Step(s, evs[0]), evs[1..]);
    }
  }

  /** No sequence of events changes how many days there are or their labels. */
  lemma {:induction false} RunKeepsHeaders(s: PlannerState, evs: seq<Event>)
    requires AdmissibleRun(s, evs)
    ensures SameHeaders(Run(s, evs).days, s.days)
    decreases |evs|
  {
    if |evs| > 0 {
      RunKeepsHeaders(Step(s, evs[0]), evs[1..]);
    }
  }
}
