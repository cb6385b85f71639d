/** The planner's data: to-do items, the day buckets of the schedule, and the
    list operations every drop handler is built from (`some`, `filter` by id,
    and the `map` that filters every day).
 */
module Todos {

  datatype Option<+T> = None | Some(value: T)

  /** One to-do entry. */
  datatype Todo = Todo(id: string, text: string)

  /** One day of the schedule: two display labels and its ordered items. */
  datatype ScheduleDay = ScheduleDay(date: string, dayOfWeek: string, todos: seq<Todo>)

  /** The whole planner: the unscheduled pool and the schedule days. */
  datatype PlannerState = PlannerState(pool: seq<Todo>, days: seq<ScheduleDay>)

  /** Some item of the list carries this id (the handlers' `some` test). */
  predicate HasId(ts: seq<Todo>, id: string) {
    exists i :: 0 <= i < |ts| && ts[i].id == id
  }

  /** Number of items of `ts` whose id is `x`. */
  function CountId(ts: seq<Todo>, x: string): nat {
    if |ts| == 0 then 0
    else (if ts[0].id == x then 1 else 0) + CountId(ts[1..], x)
  }

  /** The list without the items carrying this id (the handlers' `filter`),
      the remaining items in their original order. */
  function RemoveId(ts: seq<Todo>, id: string): (r: seq<Todo>)
    ensures |r| <= |ts|
    ensures !HasId(r, id)
    ensures forall t :: t in r <==> t in ts && t.id != id
  {
    if |ts| == 0 then []
    else if ts[0].id == id then RemoveId(ts[1..], id)
    else [ts[0]] + RemoveId(ts[1..], id)
  }

  /** `a` and `b` hold the same items other than `id`, in the same order. */
  predicate SameOthers(a: seq<Todo>, b: seq<Todo>, id: string) {
    RemoveId(a, id) == RemoveId(b, id)
  }

  /** Two schedules have the same days, with the same labels. */
  predicate SameHeaders(a: seq<ScheduleDay>, b: seq<ScheduleDay>) {
    && |a| == |b|
    && forall i :: 0 <= i < |a| ==> a[i].date == b[i].date && a[i].dayOfWeek == b[i].dayOfWeek
  }

  /** Two schedules have the same days, and each day holds the same items
      other than `id`, in the same order. */
  predicate DaysSameOthers(a: seq<ScheduleDay>, b: seq<ScheduleDay>, id: string) {
    && SameHeaders(a, b)
    && forall i :: 0 <= i < |a| ==> SameOthers(a[i].todos, b[i].todos, id)
  }

  /** Some day of the schedule holds an item with this id. */
  predicate DaysHold(days: seq<ScheduleDay>, id: string) {
    exists i :: 0 <= i < |days| && HasId(days[i].todos, id)
  }

  /** Every day, labels kept, with the items carrying this id filtered out. */
  function RemoveFromDays(days: seq<ScheduleDay>, id: string): (r: seq<ScheduleDay>)
    ensures DaysSameOthers(r, days, id)
    ensures !DaysHold(r, id)
  {
    var r := seq(|days|, i requires 0 <= i < |days| => days[i].(todos := RemoveId(days[i].todos, id)));
    assert forall i :: 0 <= i < |days| ==> SameOthers(r[i].todos, days[i].todos, id) by {
      forall i | 0 <= i < |days| {
        RemoveIdIdempotent(days[i].todos, id);
      }
    }
    r
  }

  /** Number of items with id `x` across all days. */
  function CountInDays(days: seq<ScheduleDay>, x: string): nat {
    if |days| == 0 then 0 else CountId(days[0].todos, x) + CountInDays(days[1..], x)
  }

  /** Number of items across all days. */
  function ItemsInDays(days: seq<ScheduleDay>): nat {
    if |days| == 0 then 0 else |days[0].todos| + ItemsInDays(days[1..])
  }

  // ---------------------------------------------------------------------
  // Lemmas about the list operations
  // ---------------------------------------------------------------------

  /** `some` succeeds exactly when the count is positive. */
  lemma {:induction false} HasIdIffCount(ts: seq<Todo>, x: string)
    ensures HasId(ts, x) <==> CountId(ts, x) > 0
  {
    if |ts| > 0 {
      HasIdIffCount(ts[1..], x);
      if HasId(ts, x) && ts[0].id != x {
        var i :| 0 <= i < |ts| && ts[i].id == x;
        assert ts[1..][i - 1].id == x;
      }
      if HasId(ts[1..], x) {
        var i :| 0 <= i < |ts[1..]| && ts[1..][i].id == x;
        assert ts[i + 1].id == x;
      }
    }
  }

  lemma {:induction false} CountAppend(a: seq<Todo>, b: seq<Todo>, x: string)
    ensures CountId(a + b, x) == CountId(a, x) + CountId(b, x)
  {
    if |a| > 0 {
      assert (a + b)[1..] == a[1..] + b;
      CountAppend(a[1..], b, x);
    } else {
      assert a + b == b;
    }
  }

  /** Filtering out `id` leaves no `id` and every other id's count as it was. */
  lemma {:induction false} CountRemoveId(ts: seq<Todo>, id: string, x: string)
    ensures CountId(RemoveId(ts, id), x) == if x == id then 0 else CountId(ts, x)
  {
    if |ts| > 0 {
      CountRemoveId(ts[1..], id, x);
      if ts[0].id != id {
        CountAppend([ts[0]], RemoveId(ts[1..], id), x);
      }
    }
  }

  /** The filter removes exactly the items carrying `id`. */
  lemma {:induction false} RemoveIdLength(ts: seq<Todo>, id: string)
    ensures |RemoveId(ts, id)| == |ts| - CountId(ts, id)
  {
    if |ts| > 0 {
      RemoveIdLength(ts[1..], id);
    }
  }

  /** Filtering distributes over concatenation: order is kept. */
  lemma {:induction false} RemoveIdAppend(a: seq<Todo>, b: seq<Todo>, id: string)
    ensures RemoveId(a + b, id) == RemoveId(a, id) + RemoveId(b, id)
  {
    if |a| > 0 {
      assert (a + b)[0] == a[0];
      assert (a + b)[1..] == a[1..] + b;
      RemoveIdAppend(a[1..], b, id);
    } else {
      assert a + b == b;
    }
  }

  /** A list that does not hold `id` is left as it is by the filter. */
  lemma {:induction false} RemoveIdAbsent(ts: seq<Todo>, id: string)
    requires !HasId(ts, id)
    ensures RemoveId(ts, id) == ts
  {
    if |ts| > 0 {
      assert ts[0].id != id;
      RemoveIdAbsent(ts[1..], id);
      assert ts == [ts[0]] + ts[1..];
    }
  }

  lemma RemoveIdIdempotent(ts: seq<Todo>, id: string)
    ensures RemoveId(RemoveId(ts, id), id) == RemoveId(ts, id)
  {
    RemoveIdAbsent(RemoveId(ts, id), id);
  }

  /** Appending an item with id `id` is invisible to the others. */
  lemma AppendSameOthers(ts: seq<Todo>, t: Todo)
    ensures SameOthers(ts + [t], ts, t.id)
  {
    RemoveIdAppend(ts, [t], t.id);
    assert RemoveId([t], t.id) == [];
    assert RemoveId(ts, t.id) + [] == RemoveId(ts, t.id);
  }

  /** A day's count is bounded by the count across all days. */
  lemma {:induction false} CountInDaysAtLeast(days: seq<ScheduleDay>, i: int, x: string)
    requires 0 <= i < |days|
    ensures CountId(days[i].todos, x) <= CountInDays(days, x)
  {
    if i > 0 {
      CountInDaysAtLeast(days[1..], i - 1, x);
    }
  }

  /** Some day holds `x` exactly when the count across the days is positive. */
  lemma {:induction false} DaysHoldIffCount(days: seq<ScheduleDay>, x: string)
    ensures DaysHold(days, x) <==> CountInDays(days, x) > 0
  {
    if |days| > 0 {
      DaysHoldIffCount(days[1..], x);
      HasIdIffCount(days[0].todos, x);
      if DaysHold(days, x) && !HasId(days[0].todos, x) {
        var i :| 0 <= i < |days| && HasId(days[i].todos, x);
        assert HasId(days[1..][i - 1].todos, x);
      }
      if DaysHold(days[1..], x) {
        var i :| 0 <= i < |days[1..]| && HasId(days[1..][i].todos, x);
        assert HasId(days[i + 1].todos, x);
      }
    }
  }

  /** Replacing one day changes the id count by that day's difference. */
  lemma {:induction false} CountInDaysUpdate(days: seq<ScheduleDay>, i: int, d: ScheduleDay, x: string)
    requires 0 <= i < |days|
    ensures CountInDays(days[i := d], x) + CountId(days[i].todos, x)
         == CountInDays(days, x) + CountId(d.todos, x)
  {
    if i > 0 {
      assert days[i := d][1..] == days[1..][i - 1 := d];
      CountInDaysUpdate(days[1..], i - 1, d, x);
    }
  }

  /** Replacing one day changes the item total by that day's difference. */
  lemma {:induction false} ItemsInDaysUpdate(days: seq<ScheduleDay>, i: int, d: ScheduleDay)
    requires 0 <= i < |days|
    ensures ItemsInDays(days[i := d]) + |days[i].todos| == ItemsInDays(days) + |d.todos|
  {
    if i > 0 {
      assert days[i := d][1..] == days[1..][i - 1 := d];
      ItemsInDaysUpdate(days[1..], i - 1, d);
    }
  }

  /** Filtering every day removes `id` from the schedule and keeps every other count. */
  lemma {:induction false} CountRemoveFromDays(days: seq<ScheduleDay>, id: string, x: string)
    ensures CountInDays(RemoveFromDays(days, id), x) == if x == id then 0 else CountInDays(days, x)
  {
    if |days| > 0 {
      assert RemoveFromDays(days, id)[1..] == RemoveFromDays(days[1..], id);
      CountRemoveFromDays(days[1..], id, x);
      CountRemoveId(days[0].todos, id, x);
    }
  }

  /** A schedule that does not hold `id` is left as it is by filtering every day. */
  lemma RemoveFromDaysAbsent(days: seq<ScheduleDay>, id: string)
    requires !DaysHold(days, id)
    ensures RemoveFromDays(days, id) == days
  {
    forall i | 0 <= i < |days|
      ensures RemoveFromDays(days, id)[i] == days[i]
    {
      RemoveIdAbsent(days[i].todos, id);
    }
  }
}
