/** The `ScheduleList` component: the drop handler shared by every day of the
    schedule. Each `ScheduleDay` drop target forwards its own position as
    `index`; the handler moves the item between days, or takes it in from the
    pool and reports that through `onTodoMove`.
 */
module ScheduleList {
  import opened Todos

  /** The `findIndex` search over the days: the position of the first day
      holding the id, or -1 when no day does. */
  function FindDayIndex(days: seq<ScheduleDay>, id: string): (r: int)
    ensures -1 <= r < |days|
    ensures r == -1 <==> !DaysHold(days, id)
    ensures r != -1 ==> HasId(days[r].todos, id)
    ensures forall j :: 0 <= j < r ==> !HasId(days[j].todos, id)
  {
    if |days| == 0 then -1
    else if HasId(days[0].todos, id) then 0
    else
      var k := FindDayIndex(days[1..], id);
      assert forall j :: 1 <= j < |days| ==> days[j] == days[1..][j - 1];
      if k == -1 then -1 else k + 1
  }

  /** The new schedule, and the id handed to `onTodoMove` if it was called. */
  datatype DropOutcome = DropOutcome(days: seq<ScheduleDay>, moved: Option<string>)

  /** `handleDrop(index, item)`. The source indexes the target day without a
      bounds check, so `index` must name a day. */
  function HandleDrop(days: seq<ScheduleDay>, index: int, item: Todo): (r: DropOutcome)
    requires 0 <= index < |days|
    ensures SameHeaders(r.days, days)
    ensures HasId(r.days[index].todos, item.id)
    ensures r.moved.Some? <==> !DaysHold(days, item.id)
    // the first day holding the id is the target: nothing happens
    ensures FindDayIndex(days, item.id) == index ==> r == DropOutcome(days, None)
    // the first day holding the id is another day: the item moves from there
    ensures var e := FindDayIndex(days, item.id);
      e != -1 && e != index ==>
        && r.moved == None
        && r.days[e].todos == RemoveId(days[e].todos, item.id)
        && r.days[index].todos == days[index].todos + [item]
        && forall j :: 0 <= j < |days| && j != e && j != index ==> r.days[j] == days[j]
    // no day holds the id: it comes from the pool
    ensures !DaysHold(days, item.id) ==>
      && r.moved == Some(item.id)
      && r.days[index].todos == days[index].todos + [item]
      && forall j :: 0 <= j < |days| && j != index ==> r.days[j] == days[j]
  {
    var e := FindDayIndex(days, item.id);
    var target := days[index];
    var added := target.(todos := target.todos + [item]);
    assert added.todos[|target.todos|] == item;
    if e != -1 then
      if e != index then
        var source := days[e];
        DropOutcome(days[e := source.(todos := RemoveId(source.todos, item.id))][index := added], None)
      else
        DropOutcome(days, None)
    else
      DropOutcome(days[index := added], Some(item.id))
  }

  /** Total items across the days: unchanged by a same-day drop, changed by a
      cross-day move only by what the filter removed from the source day minus
      the one item appended, and one more when the item came from the pool. */
  lemma DropItemCount(days: seq<ScheduleDay>, index: int, item: Todo)
    requires 0 <= index < |days|
    ensures var r := HandleDrop(days, index, item);
      var e := FindDayIndex(days, item.id);
      && (e == index ==> ItemsInDays(r.days) == ItemsInDays(days))
      && (e != -1 && e != index ==>
            ItemsInDays(r.days) + CountId(days[e].todos, item.id) == ItemsInDays(days) + 1)
      && (e == -1 ==> ItemsInDays(r.days) == ItemsInDays(days) + 1)
  {
    var r := HandleDrop(days, index, item);
    var e := FindDayIndex(days, item.id);
    var target := days[index];
    var added := target.(todos := target.todos + [item]);
    if e != -1 && e != index {
      var source := days[e];
      var removed := source.(todos := RemoveId(source.todos, item.id));
      var mid := days[e := removed];
      assert r.days == mid[index := added];
      ItemsInDaysUpdate(days, e, removed);
      RemoveIdLength(source.todos, item.id);
      ItemsInDaysUpdate(mid, index, added);
    } else if e == -1 {
      assert r.days == days[index := added];
      ItemsInDaysUpdate(days, index, added);
    }
  }

  /** When the dropped id occurs at most once across all days, a cross-day
      move keeps the total. */
  lemma CrossDayMoveKeepsTotal(days: seq<ScheduleDay>, index: int, item: Todo)
    requires 0 <= index < |days|
    requires CountInDays(days, item.id) <= 1
    requires DaysHold(days, item.id) && FindDayIndex(days, item.id) != index
    ensures ItemsInDays(HandleDrop(days, index, item).days) == ItemsInDays(days)
  {
    var e := FindDayIndex(days, item.id);
    DropItemCount(days, index, item);
    HasIdIffCount(days[e].todos, item.id);
    CountInDaysAtLeast(days, e, item.id);
  }

  /** Counts of the id after a drop: when the dropped id occurred at most once
      across all days before, it occurs exactly once after, in the target day. */
  lemma DropCountInDays(days: seq<ScheduleDay>, index: int, item: Todo, x: string)
    requires 0 <= index < |days|
    requires CountInDays(days, item.id) <= 1
    ensures var r := HandleDrop(days, index, item);
      && CountInDays(r.days, x) == (if x == item.id then 1 else CountInDays(days, x))
      && forall j :: 0 <= j < |r.days| && j != index ==> !HasId(r.days[j].todos, item.id)
  {
    var r := HandleDrop(days, index, item);
    var id := item.id;
    var e := FindDayIndex(days, id);
    var target := days[index];
    var added := target.(todos := target.todos + [item]);
    CountAppend(target.todos, [item], x);
    CountAppend(target.todos, [item], id);
    DaysHoldIffCount(days, id);
    if e != -1 {
      HasIdIffCount(days[e].todos, id);
      CountInDaysAtLeast(days, e, id);
    }
    if e != -1 && e != index {
      var source := days[e];
      var removed := source.(todos := RemoveId(source.todos, id));
      var mid := days[e := removed];
      assert r.days == mid[index := added];
      CountInDaysUpdate(days, e, removed, x);
      CountInDaysUpdate(days, e, removed, id);
      CountRemoveId(source.todos, id, x);
      CountRemoveId(source.todos, id, id);
      CountInDaysUpdate(mid, index, added, x);
      CountInDaysUpdate(mid, index, added, id);
      CountInDaysAtLeast(days, index, id);
    } else if e == -1 {
      assert r.days == days[index := added];
      CountInDaysUpdate(days, index, added, x);
      CountInDaysUpdate(days, index, added, id);
      CountInDaysAtLeast(days, index, id);
    } else {
      CountInDaysAtLeast(days, index, id);
    }
    OnlyTargetHolds(r.days, index, id);
  }

  /** A schedule whose only copy of `id` is in day `index` holds it in no other day. */
  lemma OnlyTargetHolds(days: seq<ScheduleDay>, index: int, id: string)
    requires 0 <= index < |days|
    requires CountInDays(days, id) <= 1 && HasId(days[index].todos, id)
    ensures forall j :: 0 <= j < |days| && j != index ==> !HasId(days[j].todos, id)
  {
    forall j | 0 <= j < |days| && j != index
      ensures !HasId(days[j].todos, id)
    {
      HasIdIffCount(days[index].todos, id);
      HasIdIffCount(days[j].todos, id);
      var d := days[index].(todos := []);
      CountInDaysUpdate(days, index, d, id);
      CountInDaysAtLeast(days[index := d], j, id);
    }
  }

  /** Dropping the same item on the same day twice is the same as once, as
      long as the dropped id occurred at most once across all days: the
      repeated drop is a no-op. */
  lemma HandleDropIdempotent(days: seq<ScheduleDay>, index: int, item: Todo)
    requires 0 <= index < |days|
    requires CountInDays(days, item.id) <= 1
    ensures var r := HandleDrop(days, index, item);
      HandleDrop(r.days, index, item) == DropOutcome(r.days, None)
  {
    var r := HandleDrop(days, index, item);
    DropCountInDays(days, index, item, item.id);
    assert FindDayIndex(r.days, item.id) == index;
  }
}
