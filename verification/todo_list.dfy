/** The `TodoList` component: adding an item to the unscheduled pool, the
    three drop targets it owns (the pool itself, "edit" and "delete"), and the
    hover-highlight flags of the two action targets.

    Each drop handler is modelled as a pure transition on the planner state;
    `monitor.didDrop()` is a boolean input and the dragged item is the
    handler's parameter.
 */
module TodoList {
  import opened Todos
  import opened Text

  // ---------------------------------------------------------------------
  // Adding an item
  // ---------------------------------------------------------------------

  /** The pool together with the text field's content. */
  datatype AddResult = AddResult(todos: seq<Todo>, input: string)

  /** `handleAddTodo`, with `Date.now().toString()` passed in as `freshId`.
      Blank input is rejected and kept in the field; anything else is stored
      untrimmed at the end of the pool and the field is cleared. */
  function AddTodo(todos: seq<Todo>, input: string, freshId: string): (r: AddResult)
    ensures AllTrimmable(input) ==> r == AddResult(todos, input)
    ensures !AllTrimmable(input) ==>
      && |r.todos| == |todos| + 1
      && r.todos[..|todos|] == todos
      && r.todos[|todos|] == Todo(freshId, input)
      && r.input == []
  {
    TrimEmptyIff(input);
    if Trim(input) != [] then
      var r := AddResult(todos + [Todo(freshId, input)], []);
      assert r.todos[..|todos|] == todos;
      r
    else
      AddResult(todos, input)
  }

  // ---------------------------------------------------------------------
  // The three drop targets
  // ---------------------------------------------------------------------

  /** Appending an item whose id the list lacks puts exactly one copy there. */
  lemma AppendAbsent(ts: seq<Todo>, t: Todo)
    requires !HasId(ts, t.id)
    ensures CountId(ts + [t], t.id) == 1
  {
    HasIdIffCount(ts, t.id);
    CountAppend(ts, [t], t.id);
  }

  /** The pool's own drop handler. A drop already handled by a nested target,
      or of an id the pool already holds, changes nothing; otherwise the item
      is appended to the pool once and filtered out of every day. */
  function DropOnPool(s: PlannerState, didDrop: bool, item: Todo): (r: PlannerState)
    ensures didDrop ==> r == s
    ensures HasId(s.pool, item.id) ==> r == s
    ensures !didDrop && !HasId(s.pool, item.id) ==>
      && r.pool == s.pool + [item]
      && CountId(r.pool, item.id) == 1
      && SameOthers(r.pool, s.pool, item.id)
      && !DaysHold(r.days, item.id)
      && DaysSameOthers(r.days, s.days, item.id)
  {
    if didDrop then s
    else if HasId(s.pool, item.id) then s
    else
      AppendAbsent(s.pool, item);
      AppendSameOthers(s.pool, item);
      PlannerState(s.pool + [item], RemoveFromDays(s.days, item.id))
  }

  /** The "edit" target's drop handler: the item leaves every day and is
      returned to the pool, where it is appended only if absent. */
  function DropOnEdit(s: PlannerState, item: Todo): (r: PlannerState)
    ensures !DaysHold(r.days, item.id)
    ensures DaysSameOthers(r.days, s.days, item.id)
    ensures HasId(r.pool, item.id)
    ensures SameOthers(r.pool, s.pool, item.id)
    ensures HasId(s.pool, item.id) ==> r.pool == s.pool
    ensures !HasId(s.pool, item.id) ==> r.pool == s.pool + [item] && CountId(r.pool, item.id) == 1
  {
    var days := RemoveFromDays(s.days, item.id);
    if HasId(s.pool, item.id) then
      PlannerState(s.pool, days)
    else
      AppendAbsent(s.pool, item);
      AppendSameOthers(s.pool, item);
      assert (s.pool + [item])[|s.pool|].id == item.id;
      PlannerState(s.pool + [item], days)
  }

  /** The "delete" target's drop handler (its item carries only the id):
      the id is filtered out of the pool and out of every day. */
  function DropOnDelete(s: PlannerState, id: string): (r: PlannerState)
    ensures !HasId(r.pool, id)
    ensures !DaysHold(r.days, id)
    ensures SameOthers(r.pool, s.pool, id)
    ensures DaysSameOthers(r.days, s.days, id)
  {
    RemoveIdIdempotent(s.pool, id);
    PlannerState(RemoveId(s.pool, id), RemoveFromDays(s.days, id))
  }

  /** A second identical pool drop changes nothing more. */
  lemma DropOnPoolIdempotent(s: PlannerState, didDrop: bool, item: Todo)
    ensures DropOnPool(DropOnPool(s, didDrop, item), didDrop, item) == DropOnPool(s, didDrop, item)
  {
    if !didDrop && !HasId(s.pool, item.id) {
      HasIdIffCount(DropOnPool(s, didDrop, item).pool, item.id);
    }
  }

  /** A second identical edit drop changes nothing more. */
  lemma DropOnEditIdempotent(s: PlannerState, item: Todo)
    ensures DropOnEdit(DropOnEdit(s, item), item) == DropOnEdit(s, item)
  {
    var r := DropOnEdit(s, item);
    RemoveFromDaysAbsent(r.days, item.id);
  }

  /** A second identical delete drop changes nothing more. */
  lemma DropOnDeleteIdempotent(s: PlannerState, id: string)
    ensures DropOnDelete(DropOnDelete(s, id), id) == DropOnDelete(s, id)
  {
    var r := DropOnDelete(s, id);
    RemoveIdAbsent(r.pool, id);
    RemoveFromDaysAbsent(r.days, id);
  }

  /** An item scheduled on some day and deleted ends up nowhere: that day
      loses its copies, and the pool shrinks by its own copies, if any,
      instead of receiving the item. */
  lemma DeleteScheduled(s: PlannerState, d: int, id: string)
    requires 0 <= d < |s.days| && HasId(s.days[d].todos, id)
    ensures !HasId(DropOnDelete(s, id).days[d].todos, id)
    ensures |DropOnDelete(s, id).days[d].todos| < |s.days[d].todos|
    ensures !HasId(DropOnDelete(s, id).pool, id)
    ensures |DropOnDelete(s, id).pool| == |s.pool| - CountId(s.pool, id)
  {
    var r := DropOnDelete(s, id);
    assert r.days[d].todos == RemoveId(s.days[d].todos, id);
    RemoveIdLength(s.days[d].todos, id);
    HasIdIffCount(s.days[d].todos, id);
    RemoveIdLength(s.pool, id);
  }

  // ---------------------------------------------------------------------
  // Hover highlight of the "edit" and "delete" targets
  // ---------------------------------------------------------------------

  datatype Target = Edit | Delete

  /** What the two action targets observe: a hover report (`monitor.isOver()`),
      a drop, or the pointer leaving the element. */
  datatype FlagEvent = Hover(target: Target, isOver: bool) | Dropped(target: Target) | Left(target: Target)

  /** `isOverEdit` and `isOverDelete`. */
  datatype Flags = Flags(overEdit: bool, overDelete: bool)

  const InitialFlags: Flags := Flags(false, false)

  function IsOver(f: Flags, t: Target): bool {
    match t
    case Edit => f.overEdit
    case Delete => f.overDelete
  }

  /** One event: the target it concerns takes the hover status (false after
      a drop or a leave); the other target's flag is untouched. */
  function FlagStep(f: Flags, ev: FlagEvent): (r: Flags)
    ensures IsOver(r, ev.target) == (ev.Hover? && ev.isOver)
    ensures forall t :: t != ev.target ==> IsOver(r, t) == IsOver(f, t)
  {
    var v := match ev
      case Hover(_, isOver) => isOver
      case Dropped(_) => false
      case Left(_) => false;
    match ev.target
    case Edit => f.(overEdit := v)
    case Delete => f.(overDelete := v)
  }

  /** The flags after the events `evs`, in order. */
  function RunFlags(f: Flags, evs: seq<FlagEvent>): Flags {
    if |evs| == 0 then f else FlagStep(RunFlags(f, evs[..|evs| - 1]), evs[|evs| - 1])
  }

  /** The most recent event of `evs` aimed at `t`, if any. */
  function LastFor(evs: seq<FlagEvent>, t: Target): Option<FlagEvent> {
    if |evs| == 0 then None
    else if evs[|evs| - 1].target == t then Some(evs[|evs| - 1])
    else LastFor(evs[..|evs| - 1], t)
  }

  /** A target is highlighted exactly when the latest event aimed at it was
      a hover reporting the pointer over it; with no such event it keeps its
      starting value. */
  lemma {:induction false} RunFlagsLatest(f: Flags, evs: seq<FlagEvent>, t: Target)
    ensures IsOver(RunFlags(f, evs), t) ==
      match LastFor(evs, t)
      case None => IsOver(f, t)
      case Some(ev) => ev.Hover? && ev.isOver
  {
    if |evs| > 0 {
      RunFlagsLatest(f, evs[..|evs| - 1], t);
    }
  }

  /** From the initial state, a target is never highlighted unless some
      hover over it was reported. */
  lemma HighlightNeedsHover(evs: seq<FlagEvent>, t: Target)
    requires IsOver(RunFlags(InitialFlags, evs), t)
    ensures exists k :: 0 <= k < |evs| && evs[k] == Hover(t, true)
  {
    RunFlagsLatest(InitialFlags, evs, t);
    LastForIsMember(evs, t);
  }

  lemma {:induction false} LastForIsMember(evs: seq<FlagEvent>, t: Target)
    ensures LastFor(evs, t).Some? ==>
      exists k :: 0 <= k < |evs| && evs[k] == LastFor(evs, t).value && evs[k].target == t
  {
    if |evs| > 0 && evs[|evs| - 1].target != t {
      LastForIsMember(evs[..|evs| - 1], t);
      if LastFor(evs, t).Some? {
        var k :| 0 <= k < |evs[..|evs| - 1]| && evs[..|evs| - 1][k] == LastFor(evs, t).value
          && evs[..|evs| - 1][k].target == t;
        assert evs[k] == evs[..|evs| - 1][k];
      }
    }
  }
}
