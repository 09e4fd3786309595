/**
 * The debounced resort of the start-time buttons (app.js:439-489): the four
 * `state.sort*` fields as one value, with the browser's timeouts reduced to
 * handles. `setTimeout` hands out a fresh positive handle and `clearTimeout`
 * withdraws one; `live` holds the handles of timeouts that may still fire.
 */
module Deferred {
  import opened Base

  const NoTimer: set<nat> := {}

  /**
   * `sortPending`, `sortDebounceHandle`, `sortPendingFocusId` and
   * `sortPendingControlSelector`, with the handles created so far and the
   * timeouts still armed.
   */
  datatype SortTimer = SortTimer(
    pending: bool,
    handle: Option<nat>,
    focusId: Option<string>,
    selector: Option<string>,
    created: nat,
    live: set<nat>)

  /** Nothing pending, no timeout armed: `state` before the first button press. */
  const Idle: SortTimer := SortTimer(false, None, None, None, 0, NoTimer)

  /**
   * The states the three operations keep: a sort is pending exactly while a
   * handle is stored, that handle is the only armed timeout, and nothing is
   * remembered for a resort that is not pending.
   */
  predicate Consistent(t: SortTimer)
  {
    && (t.pending <==> t.handle.Some?)
    && (!t.pending ==> t.focusId.None? && t.selector.None?)
    && (t.handle.Some? ==> 1 <= t.handle.value <= t.created)
    && t.live == (if t.handle.Some? then {t.handle.value} else NoTimer)
  }

  /** `if (state.sortDebounceHandle) { clearTimeout(...); state.sortDebounceHandle = null; }` */
  function ClearHandle(t: SortTimer): SortTimer
  {
    match t.handle
    case None => t
    case Some(h) => t.(handle := None, live := t.live - {h})
  }

  /**
   * scheduleDeferredSort (app.js:439-451): withdraw the armed timeout, arm a
   * new one, mark the sort pending, and record the focus id and the control
   * selector unless they are empty (a falsy string keeps the previous value).
   */
  function Schedule(t: SortTimer, focusId: string, selector: string): SortTimer
  {
    var c := ClearHandle(t);
    var h := t.created + 1;
    SortTimer(
      true,
      Some(h),
      if focusId != "" then Some(focusId) else t.focusId,
      if selector != "" then Some(selector) else t.selector,
      h,
      c.live + {h})
  }

  /** cancelDeferredSort (app.js:453-461): disarm and forget everything. */
  function Cancel(t: SortTimer): SortTimer
  {
    ClearHandle(t).(pending := false, focusId := None, selector := None)
  }

  /**
   * flushDeferredSort (app.js:463-489) without the sort itself: withdraw the
   * timeout, and when a sort is pending, clear the pending flag and the
   * remembered focus. A flush with nothing pending leaves the rest as it is.
   */
  function Flush(t: SortTimer): SortTimer
  {
    var c := ClearHandle(t);
    if !c.pending then c else c.(pending := false, focusId := None, selector := None)
  }

  /** Whether a flush from `t` runs the sort. */
  predicate FlushSorts(t: SortTimer) { t.pending }

  /** The timeout with handle `h` has fired and can no longer fire. */
  function Expire(t: SortTimer, h: nat): SortTimer
  {
    t.(live := t.live - {h})
  }

  /** Scheduling leaves a consistent state with a sort pending behind exactly one fresh timeout. */
  lemma ScheduleSpec(t: SortTimer, focusId: string, selector: string)
    requires Consistent(t)
    ensures var u := Schedule(t, focusId, selector);
            && Consistent(u)
            && u.pending
            && u.live == {t.created + 1} && t.created + 1 !in t.live
            && u.focusId == (if focusId != "" then Some(focusId) else t.focusId)
            && u.selector == (if selector != "" then Some(selector) else t.selector)
  {
  }

  /** Cancelling leaves nothing pending and no timeout armed, so a later flush does not sort. */
  lemma CancelSpec(t: SortTimer)
    requires Consistent(t)
    ensures var u := Cancel(t);
            Consistent(u) && !u.pending && u.live == {} && u.focusId.None? && u.selector.None? && !FlushSorts(u)
  {
  }

  /**
   * A flush sorts exactly when a sort was pending, and leaves nothing
   * pending, nothing remembered and no timeout armed, so no timeout can run
   * the sort a second time.
   */
  lemma FlushSpec(t: SortTimer)
    requires Consistent(t)
    ensures var u := Flush(t);
            && Consistent(u) && !u.pending && u.live == {} && u.focusId.None? && u.selector.None?
            && (!FlushSorts(t) ==> u == t)
            && !FlushSorts(u)
  {
  }

  /** The only timeout that can fire is the armed one, and its firing is a plain flush. */
  lemma FireIsFlush(t: SortTimer, h: nat)
    requires Consistent(t) && h in t.live
    ensures t.handle == Some(h) && FlushSorts(t)
    ensures Flush(Expire(t, h)) == Flush(t)
  {
  }

  /** Successive presses: scheduleDeferredSort called with each (focus id, selector) pair in turn. */
  function ScheduleAll(t: SortTimer, calls: seq<(string, string)>): SortTimer
    decreases |calls|
  {
    if |calls| == 0 then t
    else ScheduleAll(Schedule(t, calls[0].0, calls[0].1), calls[1..])
  }

  /** The value remembered after `values` in turn: the last non-empty one, else `prior`. */
  function LastNonEmpty(prior: Option<string>, values: seq<string>): Option<string>
    decreases |values|
  {
    if |values| == 0 then prior
    else LastNonEmpty(if values[0] != "" then Some(values[0]) else prior, values[1..])
  }

  function Focuses(calls: seq<(string, string)>): (r: seq<string>)
    ensures |r| == |calls|
  {
    if |calls| == 0 then [] else [calls[0].0] + Focuses(calls[1..])
  }

  function Selectors(calls: seq<(string, string)>): (r: seq<string>)
    ensures |r| == |calls|
  {
    if |calls| == 0 then [] else [calls[0].1] + Selectors(calls[1..])
  }

  /**
   * Any number N >= 1 of schedules followed by one flush: the flush runs
   * the sort (exactly once, as nothing else does), hands back the last
   * non-empty focus id and selector, and leaves no timeout that could sort
   * again.
   */
  lemma {:induction false} SchedulesThenFlush(t: SortTimer, calls: seq<(string, string)>)
    requires Consistent(t) && |calls| > 0
    decreases |calls|
    ensures var s := ScheduleAll(t, calls);
            && Consistent(s)
            && FlushSorts(s)
            && |s.live| == 1
            && s.focusId == LastNonEmpty(t.focusId, Focuses(calls))
            && s.selector == LastNonEmpty(t.selector, Selectors(calls))
            && !FlushSorts(Flush(s)) && Flush(s).live == {}
  {
    var u := Schedule(t, calls[0].0, calls[0].1);
    ScheduleSpec(t, calls[0].0, calls[0].1);
    if |calls| > 1 {
      SchedulesThenFlush(u, calls[1..]);
    }
  }
}
