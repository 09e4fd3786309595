/**
 * One day's timesheet entries (app.js:9) and the read-only views over them:
 * the displayed duration of an entry (visibleMinutes, app.js:110-125), the
 * start-time order of the list (sortEntriesByStartInPlace, app.js:567-584) and
 * the ascending order the CSV export uses (app.js:655-664).
 */
module Entries {
  import opened Base
  import opened TimeOfDay
  import opened Text
  import StableSort

  /** Entry ids come from makeId; the model takes them as given strings. */
  type Id = string

  /**
   * An entry: `minutes` is the legacy stored duration, only shown for an
   * entry whose start is not a valid time; `start` is the text of its start
   * field, "" when unset.
   */
  datatype Entry = Entry(id: Id, project: string, comment: string, minutes: int, start: string)

  const SansProjet: string := "Sans projet"

  /** The start field matches `^\d{1,2}:\d{2}$`. */
  predicate HasStart(e: Entry) { IsTimeString(e.start) }

  function StartMinute(e: Entry): nat { ParseHHMM(e.start) }

  /** The entry belongs to the break project `pause`, whatever its case and surrounding blanks. */
  predicate IsPause(e: Entry) { AsciiLower(Trim(e.project)) == "pause" }

  /**
   * The summary's name for an entry's project (app.js:607): the trimmed
   * project name, or `Sans projet` when that is empty.
   */
  function ProjectLabel(e: Entry): (name: string)
    ensures Trim(e.project) != "" ==> name == Trim(e.project)
    ensures Trim(e.project) == "" ==> name == SansProjet
  {
    // `(e.project || "Sans projet").trim()` trims the fallback only when the
    // project is empty, and the fallback is its own trim (SansProjetIsPlain),
    // so trimming the project first gives the same name.
    var t := Trim(e.project);
    if t == "" then SansProjet else t
  }

  /** A label is its own trim, and only a pause entry is labelled `pause`. */
  lemma ProjectLabelPlain(e: Entry)
    ensures Trim(ProjectLabel(e)) == ProjectLabel(e)
    ensures !IsPause(e) ==> AsciiLower(ProjectLabel(e)) != "pause"
  {
    SansProjetIsPlain();
    SansProjetNotPause();
    TrimIdempotent(e.project);
  }

  lemma SansProjetIsPlain()
    ensures Trim(SansProjet) == SansProjet
  {
    SansProjetEnds();
    TrimKeeps(SansProjet);
  }

  lemma SansProjetNotPause()
    ensures AsciiLower(SansProjet) != "pause"
  {
    assert |AsciiLower(SansProjet)| == 11;
  }

  lemma SansProjetEnds()
    ensures |SansProjet| == 11 && !IsJsSpace(SansProjet[0]) && !IsJsSpace(SansProjet[10])
  {
    assert SansProjet[0] == 'S' && SansProjet[10] == 't';
  }

  // ---------------------------------------------------------------------------
  // visibleMinutes
  // ---------------------------------------------------------------------------

  /** `x` is another entry than `id` (by id) whose valid start is strictly after minute `m`. */
  predicate StartsLater(x: Entry, id: Id, m: int)
  {
    x.id != id && HasStart(x) && StartMinute(x) > m
  }

  /** The earliest start among the entries that start later than `m`, excluding `id`. */
  function NextStartAfter(es: seq<Entry>, id: Id, m: int): Option<nat>
  {
    if |es| == 0 then None
    else
      var rest := NextStartAfter(es[1..], id, m);
      if !StartsLater(es[0], id, m) then rest
      else if rest.None? || StartMinute(es[0]) < rest.value then Some(StartMinute(es[0]))
      else rest
  }

  /** The start NextStartAfter finds belongs to an entry that starts later. */
  lemma {:induction false} NextStartWitness(es: seq<Entry>, id: Id, m: int) returns (k: nat)
    requires NextStartAfter(es, id, m).Some?
    ensures k < |es| && StartsLater(es[k], id, m) && StartMinute(es[k]) == NextStartAfter(es, id, m).value
  {
    var rest := NextStartAfter(es[1..], id, m);
    if StartsLater(es[0], id, m) && (rest.None? || StartMinute(es[0]) < rest.value) {
      k := 0;
    } else {
      var j := NextStartWitness(es[1..], id, m);
      k := j + 1;
      assert es[k] == es[1..][j];
    }
  }

  /** No entry that starts later starts before the start NextStartAfter finds. */
  lemma {:induction false} NextStartLeast(es: seq<Entry>, id: Id, m: int, k: nat)
    requires k < |es| && StartsLater(es[k], id, m)
    ensures NextStartAfter(es, id, m).Some? && NextStartAfter(es, id, m).value <= StartMinute(es[k])
  {
    if k > 0 {
      assert es[1..][k - 1] == es[k];
      NextStartLeast(es[1..], id, m, k - 1);
    }
  }

  /** NextStartAfter is none exactly when no other entry starts later, and otherwise the least such start. */
  lemma NextStartAfterSpec(es: seq<Entry>, id: Id, m: int)
    ensures var r := NextStartAfter(es, id, m);
            && (r.None? <==> forall i :: 0 <= i < |es| ==> !StartsLater(es[i], id, m))
            && (r.Some? ==> exists i :: 0 <= i < |es| && StartsLater(es[i], id, m) && StartMinute(es[i]) == r.value)
            && (r.Some? ==> forall i :: 0 <= i < |es| && StartsLater(es[i], id, m) ==> r.value <= StartMinute(es[i]))
  {
    forall i | 0 <= i < |es| && StartsLater(es[i], id, m)
      ensures NextStartAfter(es, id, m).Some? && NextStartAfter(es, id, m).value <= StartMinute(es[i])
    {
      NextStartLeast(es, id, m, i);
    }
    if NextStartAfter(es, id, m).Some? {
      var k := NextStartWitness(es, id, m);
    }
  }

  /**
   * visibleMinutes (app.js:110-125): the legacy `minutes` for an entry
   * without a valid start; otherwise the gap to the nearest strictly later
   * start among the day's other entries, and 0 when there is none.
   */
  function VisibleMinutes(e: Entry, es: seq<Entry>): int
  {
    if !HasStart(e) then e.minutes
    else match NextStartAfter(es, e.id, StartMinute(e))
      case None => 0
      case Some(next) => next - StartMinute(e)
  }

  /**
   * What visibleMinutes promises: the legacy minutes without a valid start;
   * with one, a duration that is 0 exactly when no other entry starts later,
   * and otherwise reaches a later start with none strictly in between.
   */
  lemma VisibleMinutesSpec(e: Entry, es: seq<Entry>)
    ensures var r := VisibleMinutes(e, es);
            && (!HasStart(e) ==> r == e.minutes)
            && (HasStart(e) ==> r >= 0)
            && (HasStart(e) ==> (r == 0 <==> forall i :: 0 <= i < |es| ==> !StartsLater(es[i], e.id, StartMinute(e))))
            && (HasStart(e) && r > 0 ==>
                  exists i :: 0 <= i < |es| && StartsLater(es[i], e.id, StartMinute(e)) && StartMinute(es[i]) == StartMinute(e) + r)
            && (HasStart(e) ==>
                  forall i :: 0 <= i < |es| && StartsLater(es[i], e.id, StartMinute(e)) ==> StartMinute(e) + r <= StartMinute(es[i]))
  {
    NextStartAfterSpec(es, e.id, StartMinute(e));
  }

  // ---------------------------------------------------------------------------
  // The two orders by start time
  // ---------------------------------------------------------------------------

  /**
   * The sort key of app.js:569-582: later starts first, and entries without a
   * valid start (whose key is below every valid one) before all of them.
   */
  function DescKey(e: Entry): (k: int)
    ensures HasStart(e) ==> k == -(StartMinute(e) as int) && k > -(MaxParsedMinute + 1)
    ensures !HasStart(e) ==> k == -(MaxParsedMinute + 1)
  {
    if HasStart(e) then -(StartMinute(e) as int) else -(MaxParsedMinute + 1)
  }

  /** The sort key of app.js:655-664: earlier starts first, entries without a valid start last. */
  function AscKey(e: Entry): (k: int)
    ensures HasStart(e) ==> k == StartMinute(e) && k < MaxParsedMinute + 1
    ensures !HasStart(e) ==> k == MaxParsedMinute + 1
  {
    if HasStart(e) then StartMinute(e) else MaxParsedMinute + 1
  }

  /**
   * sortEntriesByStartInPlace (app.js:567-584). The comparator orders by
   * DescKey and breaks ties by original index, which is the stable sort by
   * DescKey.
   */
  function SortByStart(es: seq<Entry>): seq<Entry>
  {
    StableSort.SortByKey(es, DescKey)
  }

  /** The ascending copy exportCSV sorts (app.js:655-664); ties keep list order. */
  function SortForExport(es: seq<Entry>): seq<Entry>
  {
    StableSort.SortByKey(es, AscKey)
  }

  /** The entries without a valid start, in list order. */
  function Unscheduled(es: seq<Entry>): seq<Entry>
  {
    if |es| == 0 then [] else (if HasStart(es[0]) then [] else [es[0]]) + Unscheduled(es[1..])
  }

  /** The entries starting at minute `m`, in list order. */
  function StartingAt(es: seq<Entry>, m: int): seq<Entry>
  {
    if |es| == 0 then [] else (if HasStart(es[0]) && StartMinute(es[0]) == m then [es[0]] else []) + StartingAt(es[1..], m)
  }

  lemma {:induction false} UnscheduledIsKeyClass(es: seq<Entry>)
    ensures Unscheduled(es) == StableSort.WithKey(es, DescKey, -(MaxParsedMinute + 1))
    ensures Unscheduled(es) == StableSort.WithKey(es, AscKey, MaxParsedMinute + 1)
  {
    if |es| > 0 { UnscheduledIsKeyClass(es[1..]); }
  }

  lemma {:induction false} StartingAtIsKeyClass(es: seq<Entry>, m: int)
    requires m <= MaxParsedMinute
    ensures StartingAt(es, m) == StableSort.WithKey(es, DescKey, -m)
    ensures StartingAt(es, m) == StableSort.WithKey(es, AscKey, m)
  {
    if |es| > 0 { StartingAtIsKeyClass(es[1..], m); }
  }

  lemma {:induction false} StartingAtOutOfRange(es: seq<Entry>, m: int)
    requires m > MaxParsedMinute
    ensures StartingAt(es, m) == []
  {
    if |es| > 0 { StartingAtOutOfRange(es[1..], m); }
  }

  /**
   * What sortEntriesByStartInPlace promises: the same entries; every entry
   * without a valid start before every entry with one, those in their
   * original order; valid starts in non-increasing order; entries with the
   * same start in their original order.
   */
  lemma SortByStartSpec(es: seq<Entry>)
    ensures multiset(SortByStart(es)) == multiset(es) && |SortByStart(es)| == |es|
    ensures forall i, j :: 0 <= i < j < |es| && HasStart(SortByStart(es)[i]) ==> HasStart(SortByStart(es)[j])
    ensures forall i, j :: 0 <= i < j < |es| && HasStart(SortByStart(es)[i]) ==>
              StartMinute(SortByStart(es)[i]) >= StartMinute(SortByStart(es)[j])
    ensures Unscheduled(SortByStart(es)) == Unscheduled(es)
    ensures forall m :: StartingAt(SortByStart(es), m) == StartingAt(es, m)
  {
    var r := SortByStart(es);
    StableSort.SortOrdered(es, DescKey);
    UnscheduledIsKeyClass(es);
    UnscheduledIsKeyClass(r);
    StableSort.SortStable(es, DescKey, -(MaxParsedMinute + 1));
    forall m ensures StartingAt(r, m) == StartingAt(es, m) {
      if m <= MaxParsedMinute {
        StartingAtIsKeyClass(es, m);
        StartingAtIsKeyClass(r, m);
        StableSort.SortStable(es, DescKey, -m);
      } else {
        StartingAtOutOfRange(es, m);
        StartingAtOutOfRange(r, m);
      }
    }
  }

  /**
   * The export order: the same entries, valid starts first and ascending,
   * entries without one after them; ties and the unscheduled entries keep
   * list order.
   */
  lemma SortForExportSpec(es: seq<Entry>)
    ensures multiset(SortForExport(es)) == multiset(es) && |SortForExport(es)| == |es|
    ensures forall i, j :: 0 <= i < j < |es| && HasStart(SortForExport(es)[j]) ==> HasStart(SortForExport(es)[i])
    ensures forall i, j :: 0 <= i < j < |es| && HasStart(SortForExport(es)[j]) ==>
              StartMinute(SortForExport(es)[i]) <= StartMinute(SortForExport(es)[j])
    ensures Unscheduled(SortForExport(es)) == Unscheduled(es)
    ensures forall m :: StartingAt(SortForExport(es), m) == StartingAt(es, m)
  {
    var r := SortForExport(es);
    StableSort.SortOrdered(es, AscKey);
    UnscheduledIsKeyClass(es);
    UnscheduledIsKeyClass(r);
    StableSort.SortStable(es, AscKey, MaxParsedMinute + 1);
    forall m ensures StartingAt(r, m) == StartingAt(es, m) {
      if m <= MaxParsedMinute {
        StartingAtIsKeyClass(es, m);
        StartingAtIsKeyClass(r, m);
        StableSort.SortStable(es, AscKey, m);
      } else {
        StartingAtOutOfRange(es, m);
        StartingAtOutOfRange(r, m);
      }
    }
  }

  /** A list already in start order is left as it is, so sorting again changes nothing. */
  lemma SortByStartIdempotent(es: seq<Entry>)
    ensures SortByStart(SortByStart(es)) == SortByStart(es)
  {
    StableSort.SortIdempotent(es, DescKey);
  }

  // ---------------------------------------------------------------------------
  // Distinct ids and distinct starts
  // ---------------------------------------------------------------------------

  ghost predicate DistinctIds(es: seq<Entry>)
  {
    forall i, j :: 0 <= i < j < |es| ==> es[i].id != es[j].id
  }

  /** No two entries with a valid start share the same start minute. */
  ghost predicate DistinctStarts(es: seq<Entry>)
  {
    forall i, j :: 0 <= i < j < |es| && HasStart(es[i]) && HasStart(es[j]) ==> StartMinute(es[i]) != StartMinute(es[j])
  }

  /** Reordering keeps ids and starts distinct. */
  lemma PermutationKeepsDistinct(es: seq<Entry>, r: seq<Entry>)
    requires multiset(r) == multiset(es)
    ensures DistinctIds(es) ==> DistinctIds(r)
    ensures DistinctStarts(es) ==> DistinctStarts(r)
  {
    forall i, j | 0 <= i < j < |r|
      ensures DistinctIds(es) ==> r[i].id != r[j].id
      ensures DistinctStarts(es) && HasStart(r[i]) && HasStart(r[j]) ==> StartMinute(r[i]) != StartMinute(r[j])
    {
      var a, b := StableSort.PermutationPositions(es, r, i, j);
      if a > b { a, b := b, a; }
    }
  }

  /** The position of the first entry with id `id`, as Array.find and findIndex see it. */
  function FindIndex(es: seq<Entry>, id: Id): (r: Option<nat>)
    ensures r.None? <==> forall i :: 0 <= i < |es| ==> es[i].id != id
    ensures r.Some? ==> r.value < |es| && es[r.value].id == id && forall i :: 0 <= i < r.value ==> es[i].id != id
  {
    if |es| == 0 then None
    else if es[0].id == id then Some(0)
    else match FindIndex(es[1..], id)
      case None => None
      case Some(k) =>
        assert forall i :: 1 <= i < |es| ==> es[i] == es[1..][i - 1];
        Some(k + 1)
  }
}
