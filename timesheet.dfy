/**
 * The application state of app.js:186-199 and the operations that change it:
 * adding and removing entries (app.js:389-434), the start-time buttons
 * (adjustStart, app.js:496-535), the start field's handlers (app.js:296-342),
 * the debounced resort (app.js:439-489), the project list (ensureProject,
 * app.js:61-68) and the change of day (app.js:890-902).
 */
module Sheet {
  import opened Base
  import opened TimeOfDay
  import opened Text
  import opened Entries
  import opened Uniqueness
  import opened Rounding
  import opened Deferred
  import StableSort

  // ---------------------------------------------------------------------------
  // The entry list after one of the state changes
  // ---------------------------------------------------------------------------

  /** The list after ensureUniqueStart(es[p], preferredDir) has stored its result on entry `p`. */
  function Resolved(es: seq<Entry>, p: nat, preferredDir: int): seq<Entry>
    requires p < |es|
  {
    es[p := es[p].(start := ResolvedStart(es, es[p].id, es[p].start, preferredDir))]
  }

  /** The list after `e.start = s; ensureUniqueStart(e, preferredDir)` on entry `p`. */
  function WithStart(es: seq<Entry>, p: nat, s: string, preferredDir: int): seq<Entry>
    requires p < |es|
  {
    Resolved(es[p := es[p].(start := s)], p, preferredDir)
  }

  /** Only the start of entry `p` changes; an invalid start is stored as given. */
  lemma WithStartFrame(es: seq<Entry>, p: nat, s: string, preferredDir: int)
    requires p < |es|
    ensures var r := WithStart(es, p, s, preferredDir);
            && |r| == |es|
            && (forall i :: 0 <= i < |es| && i != p ==> r[i] == es[i])
            && r[p] == es[p].(start := r[p].start)
            && (!IsTimeString(s) ==> r[p].start == s)
            && (IsTimeString(s) ==> IsTimeString(r[p].start))
  {
    var es1 := es[p := es[p].(start := s)];
    ResolvedStartInvalid(es1, es[p].id, s, preferredDir);
    if IsTimeString(s) {
      ResolvedStartShape(es1, es[p].id, s, preferredDir);
    }
  }

  /** A valid start that no other entry has is kept exactly as written. */
  lemma WithStartKept(es: seq<Entry>, p: nat, s: string, preferredDir: int)
    requires p < |es| && IsTimeString(s) && !Collides(es, es[p].id, ParseHHMM(s))
    ensures WithStart(es, p, s, preferredDir)[p].start == s
  {
    var es1 := es[p := es[p].(start := s)];
    CollidesUpdate(es, p, es[p].(start := s), ParseHHMM(s));
    StepsFromSpec(es1, es[p].id, ParseHHMM(s), Direction(preferredDir), 0);
  }

  /** The start WithStart leaves on entry `p` is the result of the search over the list holding `s`. */
  lemma WithStartAt(es: seq<Entry>, p: nat, s: string, preferredDir: int)
    requires p < |es|
    ensures WithStart(es, p, s, preferredDir)[p].start == ResolvedStart(es[p := es[p].(start := s)], es[p].id, s, preferredDir)
  {
  }

  /**
   * A valid start that another entry already has moves by 1 to 96 quarter
   * hours in the direction of `preferredDir`, modulo a day, and is then
   * written canonically.
   */
  lemma WithStartMoved(es: seq<Entry>, p: nat, s: string, preferredDir: int) returns (n: nat)
    requires p < |es| && IsTimeString(s) && Collides(es, es[p].id, ParseHHMM(s))
    ensures var r := WithStart(es, p, s, preferredDir)[p].start;
            && IsCanonicalClock(r)
            && 1 <= n <= MaxSteps && ParseHHMM(r) == (ParseHHMM(s) + Offset(Direction(preferredDir), n)) % MinutesPerDay
  {
    var es1 := es[p := es[p].(start := s)];
    var id := es[p].id;
    WithStartAt(es, p, s, preferredDir);
    CollidesUpdate(es, p, es[p].(start := s), ParseHHMM(s));
    n := ResolvedSteps(es1, id, s, preferredDir);
    assert n > 0;
    ResolvedStartMoved(es1, id, s, preferredDir);
  }

  /** With fewer than 96 other valid starts, no other entry of the new list shares the resolved start. */
  lemma WithStartFree(es: seq<Entry>, p: nat, s: string, preferredDir: int)
    requires p < |es| && IsTimeString(s) && CountOthers(es, es[p].id) < MaxSteps
    ensures var r := WithStart(es, p, s, preferredDir);
            !Collides(r, es[p].id, StartMinute(r[p]))
  {
    var es1 := es[p := es[p].(start := s)];
    var id := es[p].id;
    var t := ResolvedStart(es1, id, s, preferredDir);
    WithStartAt(es, p, s, preferredDir);
    CountOthersUpdate(es, p, es[p].(start := s));
    ResolvedStartFree(es1, id, s, preferredDir);
    assert WithStart(es, p, s, preferredDir) == es1[p := es1[p].(start := t)];
    CollidesUpdate(es1, p, es1[p].(start := t), ParseHHMM(t));
  }

  /** Distinct ids and starts stay distinct while fewer than 96 other entries have a valid start. */
  lemma WithStartKeepsDistinct(es: seq<Entry>, p: nat, s: string, preferredDir: int)
    requires p < |es| && DistinctIds(es) && DistinctStarts(es) && CountOthers(es, es[p].id) < MaxSteps
    ensures DistinctIds(WithStart(es, p, s, preferredDir)) && DistinctStarts(WithStart(es, p, s, preferredDir))
  {
    ResolveKeepsDistinct(es, p, s, preferredDir);
  }

  /** Sorting the list afterwards keeps both distinctness properties. */
  lemma SortKeepsDistinct(es: seq<Entry>)
    ensures DistinctIds(es) ==> DistinctIds(SortByStart(es))
    ensures DistinctStarts(es) ==> DistinctStarts(SortByStart(es))
  {
    SortByStartSpec(es);
    PermutationKeepsDistinct(es, SortByStart(es));
  }

  // ---------------------------------------------------------------------------
  // addEntry, addEmptyEntry, removeEntry
  // ---------------------------------------------------------------------------

  /** The optional fields of addEntry's `prefill` argument; None stands for a missing property. */
  datatype Prefill = Prefill(project: Option<string>, comment: Option<string>, minutes: Option<int>, start: Option<string>)

  /** `prefill = {}`: the plain Add button. */
  const NoPrefill: Prefill := Prefill(None, None, None, None)

  /** `x || ''` on an optional string: a missing or empty value gives the empty string. */
  function OrEmpty(o: Option<string>): string
  {
    match o case None => "" case Some(s) => s
  }

  /**
   * The entry addEntry builds (app.js:392-400): prefilled project and comment
   * or empty ones, prefilled minutes or 0, and the prefilled start or, without
   * one, the current time on today's sheet and no start on another day.
   */
  function NewEntry(id: Id, prefill: Prefill, isToday: bool, now: string): Entry
  {
    Entry(
      id,
      OrEmpty(prefill.project),
      OrEmpty(prefill.comment),
      match prefill.minutes case None => 0 case Some(m) => m,
      match prefill.start case Some(s) => s case None => if isToday then now else "")
  }

  /** The entry of addEmptyEntry (app.js:413-419). */
  function EmptyEntry(id: Id): Entry
  {
    Entry(id, "", "", 0, "")
  }

  /** `entries.push(x); ensureUniqueStart(x)`. */
  function Added(es: seq<Entry>, x: Entry): seq<Entry>
  {
    Resolved(es + [x], |es|, 1)
  }

  /** Adding keeps every old entry in place and appends `x` with only its start possibly moved. */
  lemma AddedSpec(es: seq<Entry>, x: Entry)
    ensures var r := Added(es, x);
            && r == es + [x.(start := r[|es|].start)]
            && (!IsTimeString(x.start) ==> r[|es|] == x)
            && (IsTimeString(x.start) ==> IsTimeString(r[|es|].start))
  {
    var blank := es + [x.(start := "")];
    var p := |es|;
    assert blank[p := blank[p].(start := x.start)] == es + [x];
    WithStartFrame(blank, p, x.start, 1);
  }

  /** The new entry never counts as a collision with itself, so a start no old entry has is kept. */
  lemma AddedKeepsFreeStart(es: seq<Entry>, x: Entry)
    requires IsTimeString(x.start) && !Collides(es, x.id, ParseHHMM(x.start))
    ensures Added(es, x)[|es|] == x
  {
    var blank := es + [x.(start := "")];
    var p := |es|;
    assert blank[p := blank[p].(start := x.start)] == es + [x];
    CollidesSnocSelf(es, x.(start := ""), ParseHHMM(x.start));
    WithStartKept(blank, p, x.start, 1);
  }

  /** Ids and starts stay distinct when the id is new and fewer than 96 old entries have a valid start. */
  lemma AddedKeepsDistinct(es: seq<Entry>, x: Entry)
    requires forall i :: 0 <= i < |es| ==> es[i].id != x.id
    requires DistinctIds(es) && DistinctStarts(es) && CountOthers(es, x.id) < MaxSteps
    ensures DistinctIds(Added(es, x)) && DistinctStarts(Added(es, x))
  {
    var blank := es + [x.(start := "")];
    var p := |es|;
    assert blank[p := blank[p].(start := x.start)] == es + [x];
    assert Added(es, x) == WithStart(blank, p, x.start, 1);
    CountOthersSnocSelf(es, x.(start := ""));
    WithStartKeepsDistinct(blank, p, x.start, 1);
  }

  /** An appended entry does not collide with itself. */
  lemma {:induction false} CollidesSnocSelf(es: seq<Entry>, x: Entry, m: int)
    ensures Collides(es + [x], x.id, m) == Collides(es, x.id, m)
  {
    if |es| == 0 {
      assert [x][1..] == [];
    } else {
      assert (es + [x])[1..] == es[1..] + [x];
      CollidesSnocSelf(es[1..], x, m);
    }
  }

  /** An empty entry has no valid start, so appending it keeps starts distinct. */
  lemma EmptyEntryKeepsDistinct(es: seq<Entry>, id: Id)
    requires DistinctStarts(es)
    ensures DistinctStarts(es + [EmptyEntry(id)])
    ensures (forall i :: 0 <= i < |es| ==> es[i].id != id) && DistinctIds(es) ==> DistinctIds(es + [EmptyEntry(id)])
  {
    var r := es + [EmptyEntry(id)];
    assert !HasStart(r[|es|]);
  }

  /** removeEntry (app.js:427-434): the first entry with id `id` is spliced out, if there is one. */
  function Removed(es: seq<Entry>, id: Id): seq<Entry>
  {
    match FindIndex(es, id)
    case None => es
    case Some(i) => StableSort.Without(es, i)
  }

  /**
   * Removing keeps the other entries in their order: with distinct ids the
   * entry `id` is cut out of its position and nothing else changes, and
   * distinct starts stay distinct.
   */
  lemma RemovedSpec(es: seq<Entry>, id: Id)
    ensures (forall i :: 0 <= i < |es| ==> es[i].id != id) ==> Removed(es, id) == es
    ensures DistinctIds(es) ==> forall i :: 0 <= i < |es| && es[i].id == id ==> Removed(es, id) == es[..i] + es[i + 1..]
    ensures DistinctIds(es) ==> DistinctIds(Removed(es, id)) && (forall e :: e in Removed(es, id) ==> e.id != id)
    ensures DistinctStarts(es) ==> DistinctStarts(Removed(es, id))
  {
    var r := Removed(es, id);
    match FindIndex(es, id)
    case None =>
    case Some(k) =>
      forall a, b | 0 <= a < b < |r| ensures (DistinctIds(es) ==> r[a].id != r[b].id)
        && (DistinctStarts(es) && HasStart(r[a]) && HasStart(r[b]) ==> StartMinute(r[a]) != StartMinute(r[b]))
      {
        var a', b' := if a < k then a else a + 1, if b < k then b else b + 1;
        assert r[a] == es[a'] && r[b] == es[b'];
      }
      if DistinctIds(es) {
        forall e | e in r ensures e.id != id {
          var j :| 0 <= j < |r| && r[j] == e;
          var j' := if j < k then j else j + 1;
          assert r[j] == es[j'];
        }
      }
  }

  // ---------------------------------------------------------------------------
  // The start field and the start buttons
  // ---------------------------------------------------------------------------

  /** The preferredDir the start field's 'change' handler chooses (app.js:322-331). */
  function ChangeDirection(prev: string, v: string): int
  {
    if IsTimeString(prev) && IsTimeString(v) && ParseHHMM(v) < ParseHHMM(prev) then -1 else 1
  }

  /** The list after the 'change' handler stored the accepted value `v` on entry `p` (app.js:321-333). */
  function StartChanged(es: seq<Entry>, p: nat, v: string): seq<Entry>
    requires p < |es|
  {
    WithStart(es, p, v, ChangeDirection(es[p].start, v))
  }

  /**
   * A typed start that another entry already has is moved by 1 to 96
   * quarter hours: backwards when it is earlier than the entry's previous
   * valid start, forwards otherwise (also when there was no valid start).
   */
  lemma StartChangedMoves(es: seq<Entry>, p: nat, v: string) returns (n: nat)
    requires p < |es| && IsTimeString(v) && Collides(es, es[p].id, ParseHHMM(v))
    ensures var r := StartChanged(es, p, v)[p].start;
            && IsCanonicalClock(r) && 1 <= n <= MaxSteps
            && (HasStart(es[p]) && ParseHHMM(v) < StartMinute(es[p]) ==> ParseHHMM(r) == (ParseHHMM(v) - Step * n) % MinutesPerDay)
            && (!(HasStart(es[p]) && ParseHHMM(v) < StartMinute(es[p])) ==> ParseHHMM(r) == (ParseHHMM(v) + Step * n) % MinutesPerDay)
  {
    n := WithStartMoved(es, p, v, ChangeDirection(es[p].start, v));
  }

  /** The saved stage record of entry `id`, as `state.roundingStart[id]` reads it. */
  function Saved(m: map<Id, RoundingState>, id: Id): Option<RoundingState>
  {
    if id in m then Some(m[id]) else None
  }

  /**
   * The minute a press starts from (app.js:514): the entry's start when the
   * field is not empty (0 for text that is not a time), otherwise the
   * current time.
   */
  function PressBase(e: Entry, now: string): nat
  {
    if e.start != "" then ParseHHMM(e.start) else ParseHHMM(now)
  }

  /**
   * After a press that lands on minute `m`, the entry's start is `m` written
   * canonically when no other entry starts there, and otherwise `m` moved a
   * further 1 to 96 quarter hours in the press direction.
   */
  lemma PressedStart(es: seq<Entry>, p: nat, m: nat, delta: int) returns (n: nat)
    requires p < |es| && m < MinutesPerDay
    ensures var r := WithStart(es, p, FormatClock(m), Direction(delta))[p].start;
            && IsCanonicalClock(r)
            && (!Collides(es, es[p].id, m) ==> ParseHHMM(r) == m)
            && (Collides(es, es[p].id, m) ==> 1 <= n <= MaxSteps && ParseHHMM(r) == (m + Offset(Direction(delta), n)) % MinutesPerDay)
  {
    FormatClockParses(m);
    if Collides(es, es[p].id, m) {
      n := WithStartMoved(es, p, FormatClock(m), Direction(delta));
    } else {
      n := 0;
      WithStartKept(es, p, FormatClock(m), Direction(delta));
    }
  }

  // ---------------------------------------------------------------------------
  // ensureProject
  // ---------------------------------------------------------------------------

  /**
   * The list ensureProject leaves after pushing a new name and sorting: the
   * old names and the new one, in ascending order, strictly so when there
   * were no repeated names before.
   */
  lemma ProjectAddedSpec(ps: seq<string>, p: string)
    ensures var r := SortNames(ps + [p]);
            && p in r && multiset(r) == multiset(ps) + multiset{p} && SortedNames(r)
            && (NoDuplicates(ps) && p !in ps ==> forall i, j :: 0 <= i < j < |r| ==> LexLess(r[i], r[j]))
  {
    var r := SortNames(ps + [p]);
    assert p in multiset(r);
    SortNamesSorted(ps + [p]);
    if NoDuplicates(ps) && p !in ps {
      SortNamesStrict(ps + [p]);
    }
  }

  // ---------------------------------------------------------------------------
  // The application state
  // ---------------------------------------------------------------------------

  /** The selector scheduleDeferredSort is given for the button that was pressed (app.js:534). */
  function ButtonSelector(delta: int): string
  {
    if delta >= 0 then ".btn-start-inc" else ".btn-start-dec"
  }

  /**
   * `state` (app.js:186-199) without the view-only parts: the shown day, its
   * entries, the global project list `state.meta.projects`, the focused entry,
   * the two per-entry rounding maps and the resort fields. The browser's
   * timeouts are the handles created so far and the ones still armed;
   * `sortRuns` counts the runs of sortEntriesByStartInPlace.
   */
  class Timesheet {
    var date: string
    var entries: seq<Entry>
    var projects: seq<string>
    var focusedId: Option<Id>
    var rounding: map<Id, RoundingState>
    var roundingStart: map<Id, RoundingState>
    var sortPending: bool
    var sortDebounceHandle: Option<nat>
    var sortPendingFocusId: Option<string>
    var sortPendingControlSelector: Option<string>
    var timersCreated: nat
    var liveTimers: set<nat>
    ghost var sortRuns: nat

    /** The resort fields as one value. */
    function Timer(): SortTimer
      reads this
    {
      SortTimer(sortPending, sortDebounceHandle, sortPendingFocusId, sortPendingControlSelector, timersCreated, liveTimers)
    }

    ghost predicate Valid()
      reads this
    {
      Consistent(Timer())
    }

    /** The initial `state` for `today`, with the project list read from storage. */
    constructor(today: string, metaProjects: seq<string>)
      ensures Valid()
      ensures date == today && entries == [] && projects == metaProjects && focusedId == None
      ensures rounding == map[] && roundingStart == map[] && Timer() == Idle && sortRuns == 0
    {
      date := today;
      entries := [];
      projects := metaProjects;
      focusedId := None;
      rounding := map[];
      roundingStart := map[];
      sortPending := false;
      sortDebounceHandle := None;
      sortPendingFocusId := None;
      sortPendingControlSelector := None;
      timersCreated := 0;
      liveTimers := {};
      sortRuns := 0;
    }

    /** sortEntriesByStartInPlace (app.js:567-584). */
    method SortEntriesByStartInPlace()
      modifies this
      ensures entries == SortByStart(old(entries)) && sortRuns == old(sortRuns) + 1
      ensures DistinctIds(old(entries)) ==> DistinctIds(entries)
      ensures DistinctStarts(old(entries)) ==> DistinctStarts(entries)
      ensures date == old(date) && projects == old(projects) && focusedId == old(focusedId)
      ensures rounding == old(rounding) && roundingStart == old(roundingStart) && Timer() == old(Timer())
    {
      SortKeepsDistinct(entries);
      entries := SortByStart(entries);
      sortRuns := sortRuns + 1;
    }

    /** ensureUniqueStart(entries[p], preferredDir) (app.js:539-565), storing the resolved start. */
    method EnsureUniqueStart(p: nat, preferredDir: int) returns (changed: bool)
      requires p < |entries|
      modifies this
      ensures entries == Resolved(old(entries), p, preferredDir)
      ensures changed <==> ResolvedSteps(old(entries), old(entries)[p].id, old(entries)[p].start, preferredDir) > 0
      ensures date == old(date) && projects == old(projects) && focusedId == old(focusedId) && sortRuns == old(sortRuns)
      ensures rounding == old(rounding) && roundingStart == old(roundingStart) && Timer() == old(Timer())
    {
      var newStart;
      newStart, changed := ResolveStart(entries, entries[p].id, entries[p].start, preferredDir);
      entries := entries[p := entries[p].(start := newStart)];
    }

    /**
     * `e.start = s; ensureUniqueStart(e, preferredDir)` on entry `p`, as the
     * start handlers and adjustStart do it.
     */
    method WriteStart(p: nat, s: string, preferredDir: int)
      requires p < |entries|
      modifies this
      ensures entries == WithStart(old(entries), p, s, preferredDir)
      ensures DistinctIds(old(entries)) && DistinctStarts(old(entries)) && CountOthers(old(entries), old(entries)[p].id) < MaxSteps
              ==> DistinctIds(entries) && DistinctStarts(entries)
      ensures date == old(date) && projects == old(projects) && focusedId == old(focusedId) && sortRuns == old(sortRuns)
      ensures rounding == old(rounding) && roundingStart == old(roundingStart) && Timer() == old(Timer())
    {
      if DistinctIds(entries) && DistinctStarts(entries) && CountOthers(entries, entries[p].id) < MaxSteps {
        WithStartKeepsDistinct(entries, p, s, preferredDir);
      }
      entries := entries[p := entries[p].(start := s)];
      var changed := EnsureUniqueStart(p, preferredDir);
    }

    /** scheduleDeferredSort (app.js:439-451). */
    method ScheduleDeferredSort(focusId: string, controlSelector: string)
      requires Valid()
      modifies this
      ensures Valid() && Timer() == Schedule(old(Timer()), focusId, controlSelector)
      ensures entries == old(entries) && sortRuns == old(sortRuns)
      ensures date == old(date) && projects == old(projects) && focusedId == old(focusedId)
      ensures rounding == old(rounding) && roundingStart == old(roundingStart)
    {
      ScheduleSpec(Timer(), focusId, controlSelector);
      // clearTimeout on the previous handle, then setTimeout
      var armed := if sortDebounceHandle.Some? then liveTimers - {sortDebounceHandle.value} else liveTimers;
      timersCreated := timersCreated + 1;
      sortDebounceHandle := Some(timersCreated);
      liveTimers := armed + {timersCreated};
      sortPending := true;
      // a falsy focus id or selector keeps the one recorded before
      sortPendingFocusId := if focusId != "" then Some(focusId) else sortPendingFocusId;
      sortPendingControlSelector := if controlSelector != "" then Some(controlSelector) else sortPendingControlSelector;
    }

    /** cancelDeferredSort (app.js:453-461). */
    method CancelDeferredSort()
      requires Valid()
      modifies this
      ensures Valid() && Timer() == Cancel(old(Timer()))
      ensures entries == old(entries) && sortRuns == old(sortRuns)
      ensures date == old(date) && projects == old(projects) && focusedId == old(focusedId)
      ensures rounding == old(rounding) && roundingStart == old(roundingStart)
    {
      CancelSpec(Timer());
      if sortDebounceHandle.Some? {
        liveTimers := liveTimers - {sortDebounceHandle.value};
        sortDebounceHandle := None;
      }
      sortPending := false;
      sortPendingFocusId := None;
      sortPendingControlSelector := None;
    }

    /**
     * flushDeferredSort (app.js:463-489): sorts once when a sort is pending,
     * and returns the entry to highlight and the control to focus again.
     */
    method FlushDeferredSort() returns (focusId: Option<string>, controlSelector: Option<string>)
      requires Valid()
      modifies this
      ensures Valid() && Timer() == Flush(old(Timer()))
      ensures entries == (if old(sortPending) then SortByStart(old(entries)) else old(entries))
      ensures sortRuns == old(sortRuns) + (if old(sortPending) then 1 else 0)
      ensures focusId == (if old(sortPending) then old(sortPendingFocusId) else None)
      ensures controlSelector == (if old(sortPending) then old(sortPendingControlSelector) else None)
      ensures date == old(date) && projects == old(projects) && focusedId == old(focusedId)
      ensures rounding == old(rounding) && roundingStart == old(roundingStart)
    {
      FlushSpec(Timer());
      if sortDebounceHandle.Some? {
        liveTimers := liveTimers - {sortDebounceHandle.value};
        sortDebounceHandle := None;
      }
      if !sortPending {
        return None, None;
      }
      sortPending := false;
      focusId := sortPendingFocusId;
      controlSelector := sortPendingControlSelector;
      sortPendingFocusId := None;
      sortPendingControlSelector := None;
      SortEntriesByStartInPlace();
    }

    /**
     * The timeout armed by scheduleDeferredSort fires (app.js:443): only the
     * armed one can, and it always finds a sort pending, so it sorts once.
     */
    method TimerFires(h: nat) returns (focusId: Option<string>, controlSelector: Option<string>)
      requires Valid() && h in liveTimers
      modifies this
      ensures Valid() && Timer() == Flush(Expire(old(Timer()), h))
      ensures entries == SortByStart(old(entries)) && sortRuns == old(sortRuns) + 1
      ensures focusId == old(sortPendingFocusId) && controlSelector == old(sortPendingControlSelector)
      ensures date == old(date) && projects == old(projects) && focusedId == old(focusedId)
      ensures rounding == old(rounding) && roundingStart == old(roundingStart)
    {
      // the firing timeout is the stored handle, which the flush withdraws
      FireIsFlush(Timer(), h);
      focusId, controlSelector := FlushDeferredSort();
    }

    /**
     * addEntry (app.js:389-410): append the entry built from `prefill`, with
     * `newId` from makeId and `now` from nowHHMM, resolve its start forwards,
     * sort, and focus it.
     */
    method AddEntry(newId: Id, prefill: Prefill, today: string, now: string)
      requires Valid()
      modifies this
      ensures Valid()
      ensures entries == SortByStart(Added(old(entries), NewEntry(newId, prefill, old(date) == today, now)))
      ensures focusedId == Some(newId) && sortRuns == old(sortRuns) + 1
      ensures date == old(date) && projects == old(projects) && Timer() == old(Timer())
      ensures rounding == old(rounding) && roundingStart == old(roundingStart)
      ensures (forall i :: 0 <= i < |old(entries)| ==> old(entries)[i].id != newId)
              && DistinctIds(old(entries)) && DistinctStarts(old(entries)) && CountOthers(old(entries), newId) < MaxSteps
              ==> DistinctIds(entries) && DistinctStarts(entries)
    {
      var x := NewEntry(newId, prefill, date == today, now);
      PushEntry(x);
      SortEntriesByStartInPlace();
      focusedId := Some(newId);
    }

    /** `state.data.entries.push(x); ensureUniqueStart(x)` (app.js:401-402). */
    method PushEntry(x: Entry)
      modifies this
      ensures entries == Added(old(entries), x)
      ensures (forall i :: 0 <= i < |old(entries)| ==> old(entries)[i].id != x.id)
              && DistinctIds(old(entries)) && DistinctStarts(old(entries)) && CountOthers(old(entries), x.id) < MaxSteps
              ==> DistinctIds(entries) && DistinctStarts(entries)
      ensures date == old(date) && projects == old(projects) && focusedId == old(focusedId) && sortRuns == old(sortRuns)
      ensures rounding == old(rounding) && roundingStart == old(roundingStart) && Timer() == old(Timer())
    {
      if (forall i :: 0 <= i < |entries| ==> entries[i].id != x.id) && DistinctIds(entries) && DistinctStarts(entries)
         && CountOthers(entries, x.id) < MaxSteps {
        AddedKeepsDistinct(entries, x);
      }
      entries := entries + [x];
      var changed := EnsureUniqueStart(|entries| - 1, 1);
    }

    /** addEmptyEntry (app.js:412-425): append an empty entry and focus it, with no resolving and no sort. */
    method AddEmptyEntry(newId: Id)
      modifies this
      ensures entries == old(entries) + [EmptyEntry(newId)] && focusedId == Some(newId)
      ensures date == old(date) && projects == old(projects) && sortRuns == old(sortRuns) && Timer() == old(Timer())
      ensures rounding == old(rounding) && roundingStart == old(roundingStart)
    {
      entries := entries + [EmptyEntry(newId)];
      focusedId := Some(newId);
    }

    /** removeEntry (app.js:427-434). */
    method RemoveEntry(id: Id)
      modifies this
      ensures entries == Removed(old(entries), id)
      ensures date == old(date) && projects == old(projects) && focusedId == old(focusedId) && sortRuns == old(sortRuns)
      ensures rounding == old(rounding) && roundingStart == old(roundingStart) && Timer() == old(Timer())
    {
      var i := FindIndex(entries, id);
      if i.Some? {
        entries := entries[..i.value] + entries[i.value + 1..];
      }
    }

    /**
     * adjustStart (app.js:496-535), pressed at time `nowTs` with `now` as
     * nowHHMM: one press of the stage machine on the entry's start, the
     * result resolved in the press direction, the stage record saved, and
     * the resort deferred. There is no sort until the deferred one runs.
     */
    method AdjustStart(id: Id, delta: int, nowTs: int, now: string)
      requires Valid()
      modifies this
      ensures Valid()
      ensures FindIndex(old(entries), id).None? ==>
                entries == old(entries) && roundingStart == old(roundingStart) && Timer() == old(Timer())
      ensures FindIndex(old(entries), id).Some? ==>
                var p := FindIndex(old(entries), id).value;
                var press := AdjustPress(Saved(old(roundingStart), id), delta, PressBase(old(entries)[p], now), nowTs);
                && entries == WithStart(old(entries), p, FormatClock(press.minute), Direction(delta))
                && roundingStart == old(roundingStart)[id := press.state]
                && Timer() == Schedule(old(Timer()), id, ButtonSelector(delta))
      ensures date == old(date) && projects == old(projects) && focusedId == old(focusedId) && sortRuns == old(sortRuns)
      ensures rounding == old(rounding)
      ensures DistinctIds(old(entries)) && DistinctStarts(old(entries)) && CountOthers(old(entries), id) < MaxSteps
              ==> DistinctIds(entries) && DistinctStarts(entries)
    {
      var found := FindIndex(entries, id);
      if found.None? {
        return;
      }
      var p := found.value;
      var press := AdjustPress(Saved(roundingStart, id), delta, PressBase(entries[p], now), nowTs);
      WriteStart(p, FormatClock(press.minute), Direction(delta));
      roundingStart := roundingStart[id := press.state];
      ScheduleDeferredSort(id, ButtonSelector(delta));
    }

    /**
     * The start field's 'change' handler (app.js:318-342) on entry `id`, with
     * the field's text `raw`; returns the text the field shows afterwards.
     * A value that is not a time is rejected and the old start shown again.
     * Otherwise the value is stored, its collisions are resolved backwards
     * when it is earlier than the previous valid start and forwards
     * otherwise, both rounding records of the entry are dropped, the
     * deferred resort is cancelled and the list is sorted at once.
     */
    method ChangeStart(id: Id, raw: string) returns (shown: string)
      requires Valid() && FindIndex(entries, id).Some?
      modifies this
      ensures Valid()
      ensures var p := FindIndex(old(entries), id).value;
              !IsTimeString(Trim(raw)) ==>
                && entries == old(entries) && shown == old(entries)[p].start
                && rounding == old(rounding) && roundingStart == old(roundingStart)
                && Timer() == old(Timer()) && sortRuns == old(sortRuns)
      ensures var p := FindIndex(old(entries), id).value;
              var changed := StartChanged(old(entries), p, Trim(raw));
              IsTimeString(Trim(raw)) ==>
                && entries == SortByStart(changed) && shown == changed[p].start
                && rounding == old(rounding) - {id} && roundingStart == old(roundingStart) - {id}
                && Timer() == Cancel(old(Timer())) && sortRuns == old(sortRuns) + 1
      ensures date == old(date) && projects == old(projects) && focusedId == old(focusedId)
      ensures DistinctIds(old(entries)) && DistinctStarts(old(entries)) && CountOthers(old(entries), id) < MaxSteps
              ==> DistinctIds(entries) && DistinctStarts(entries)
    {
      var p := FindIndex(entries, id).value;
      var v := Trim(raw);
      if !IsTimeString(v) {
        shown := entries[p].start;
        return;
      }
      shown := AcceptStart(p, v);
    }

    /** The rest of the 'change' handler once the value `v` is accepted for entry `p` (app.js:321-341). */
    method AcceptStart(p: nat, v: string) returns (shown: string)
      requires Valid() && p < |entries|
      modifies this
      ensures Valid()
      ensures entries == SortByStart(StartChanged(old(entries), p, v)) && shown == StartChanged(old(entries), p, v)[p].start
      ensures rounding == old(rounding) - {old(entries)[p].id} && roundingStart == old(roundingStart) - {old(entries)[p].id}
      ensures Timer() == Cancel(old(Timer())) && sortRuns == old(sortRuns) + 1
      ensures date == old(date) && projects == old(projects) && focusedId == old(focusedId)
      ensures DistinctIds(old(entries)) && DistinctStarts(old(entries)) && CountOthers(old(entries), old(entries)[p].id) < MaxSteps
              ==> DistinctIds(entries) && DistinctStarts(entries)
    {
      var id := entries[p].id;
      var preferredDir := ChangeDirection(entries[p].start, v);
      WriteStart(p, v, preferredDir);
      shown := entries[p].start;
      rounding := rounding - {id};
      roundingStart := roundingStart - {id};
      CancelDeferredSort();
      SortEntriesByStartInPlace();
    }

    /**
     * The start field's focus and click handlers (app.js:296-312): an entry
     * without a start gets the current time, resolved forwards, its rounding
     * records dropped and the list sorted; an entry with a start is left as
     * it is (the time picker opens).
     */
    method StampStart(id: Id, now: string)
      requires Valid() && FindIndex(entries, id).Some?
      modifies this
      ensures Valid()
      ensures var p := FindIndex(old(entries), id).value;
              old(entries)[p].start != "" ==>
                && entries == old(entries) && sortRuns == old(sortRuns)
                && rounding == old(rounding) && roundingStart == old(roundingStart)
      ensures var p := FindIndex(old(entries), id).value;
              old(entries)[p].start == "" ==>
                && entries == SortByStart(WithStart(old(entries), p, now, 1)) && sortRuns == old(sortRuns) + 1
                && rounding == old(rounding) - {id} && roundingStart == old(roundingStart) - {id}
      ensures date == old(date) && projects == old(projects) && focusedId == old(focusedId) && Timer() == old(Timer())
      ensures DistinctIds(old(entries)) && DistinctStarts(old(entries)) && CountOthers(old(entries), id) < MaxSteps
              ==> DistinctIds(entries) && DistinctStarts(entries)
    {
      var p := FindIndex(entries, id).value;
      if entries[p].start != "" {
        return;
      }
      WriteStart(p, now, 1);
      rounding := rounding - {id};
      roundingStart := roundingStart - {id};
      SortEntriesByStartInPlace();
    }

    /** ensureProject (app.js:61-68): a new non-empty trimmed name is pushed and the list sorted. */
    method EnsureProject(project: string)
      modifies this
      ensures Trim(project) == "" || Trim(project) in old(projects) ==> projects == old(projects)
      ensures Trim(project) != "" && Trim(project) !in old(projects) ==> projects == SortNames(old(projects) + [Trim(project)])
      ensures date == old(date) && entries == old(entries) && focusedId == old(focusedId) && sortRuns == old(sortRuns)
      ensures rounding == old(rounding) && roundingStart == old(roundingStart) && Timer() == old(Timer())
    {
      var p := Trim(project);
      if p == "" {
        return;
      }
      if p !in projects {
        projects := SortNames(projects + [p]);
      }
    }

    /**
     * The date picker's 'change' handler (app.js:890-902): run any deferred
     * resort, switch to the picked day (today when the picker is empty) and
     * its stored entries `loaded`, sort them, and add an empty entry to an
     * empty day. Stored entries are not made unique.
     */
    method ChangeDay(picked: string, today: string, loaded: seq<Entry>, newId: Id)
      requires Valid()
      modifies this
      ensures Valid() && Timer() == Flush(old(Timer()))
      ensures date == (if picked != "" then picked else today)
      ensures entries == (if |loaded| == 0 then [EmptyEntry(newId)] else SortByStart(loaded))
      ensures focusedId == (if |loaded| == 0 then Some(newId) else None)
      ensures sortRuns == old(sortRuns) + (if old(sortPending) then 1 else 0) + 1
      ensures projects == old(projects) && rounding == old(rounding) && roundingStart == old(roundingStart)
    {
      var focusId, controlSelector := FlushDeferredSort();
      ShowDay(if picked != "" then picked else today, loaded, newId);
    }

    /**
     * Switching to day `day` with stored entries `loaded` (app.js:892-901):
     * sort them, and give an empty day one empty focused entry; otherwise
     * nothing is focused.
     */
    method ShowDay(day: string, loaded: seq<Entry>, newId: Id)
      modifies this
      ensures date == day
      ensures entries == (if |loaded| == 0 then [EmptyEntry(newId)] else SortByStart(loaded))
      ensures focusedId == (if |loaded| == 0 then Some(newId) else None)
      ensures sortRuns == old(sortRuns) + 1 && Timer() == old(Timer())
      ensures projects == old(projects) && rounding == old(rounding) && roundingStart == old(roundingStart)
    {
      date := day;
      entries := loaded;
      SortEntriesByStartInPlace();
      if |entries| == 0 {
        AddEmptyEntry(newId);
        return;
      }
      focusedId := None;
    }
  }
}
