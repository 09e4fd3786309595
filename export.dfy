/**
 * exportCSV (app.js:650-704): the day's entries in ascending start order as
 * data lines `Date; Projet; Commentaire; Début; Fin` (pause entries left out,
 * each line ending where the next entry of the sorted list starts), then an
 * empty line and the per-project totals.
 */
module Export {
  import opened Base
  import opened TimeOfDay
  import opened Text
  import opened Entries
  import opened Summary
  import opened Csv

  const DataHeader: seq<string> := ["Date", "Projet", "Commentaire", "Début", "Fin"]
  const TotalsHeader: seq<string> := ["Projet", "Total minutes", "Total HH:MM"]

  /**
   * The end cell for position `k` of the sorted list (app.js:677-684): the start
   * of the entry right after it, pauses included, when that start is valid,
   * and empty otherwise or at the end of the list.
   */
  function EndTime(sorted: seq<Entry>, k: nat): string
    requires k < |sorted|
  {
    if k + 1 < |sorted| && HasStart(sorted[k + 1]) then sorted[k + 1].start else ""
  }

  /** The data line app.js:686-692 pushes for position `k` of the sorted list. */
  function DataLine(date: string, sorted: seq<Entry>, k: nat): seq<string>
    requires k < |sorted|
  {
    [date, sorted[k].project, sorted[k].comment, sorted[k].start, EndTime(sorted, k)]
  }

  /** The data lines for the first `n` positions of the sorted list, pauses skipped. */
  function DataLines(date: string, sorted: seq<Entry>, n: nat): seq<seq<string>>
    requires n <= |sorted|
  {
    if n == 0 then []
    else DataLines(date, sorted, n - 1) + (if IsPause(sorted[n - 1]) then [] else [DataLine(date, sorted, n - 1)])
  }

  /** `[project, String(minutes), minutesToHHMM(minutes)]` (app.js:700-702). */
  function TotalsLine(row: Row): seq<string>
  {
    [row.project, IntToString(row.minutes), FormatDuration(row.minutes)]
  }

  function TotalsLines(rows: seq<Row>): (r: seq<seq<string>>)
    ensures |r| == |rows|
  {
    if |rows| == 0 then [] else TotalsLines(rows[..|rows| - 1]) + [TotalsLine(rows[|rows| - 1])]
  }

  lemma {:induction false} TotalsLinesAt(rows: seq<Row>, i: nat)
    requires i < |rows|
    ensures TotalsLines(rows)[i] == TotalsLine(rows[i])
  {
    if i < |rows| - 1 {
      TotalsLinesAt(rows[..|rows| - 1], i);
    }
  }

  /** The filter of app.js:697-699: rows whose name does not read `pause` in lower case. */
  function NotPauseRows(rows: seq<Row>): seq<Row>
  {
    if |rows| == 0 then []
    else (if AsciiLower(rows[0].project) == "pause" then [] else [rows[0]]) + NotPauseRows(rows[1..])
  }

  /** Every line of the export for the day `es` dated `date`. */
  function ExportLines(date: string, es: seq<Entry>): seq<seq<string>>
  {
    var sorted := SortForExport(es);
    [DataHeader] + DataLines(date, sorted, |sorted|) + [[], TotalsHeader]
      + TotalsLines(NotPauseRows(ProjectSummary(es)))
  }

  /**
   * exportCSV (app.js:650-704) up to the download: the lines built by the two
   * loops, quoted and joined. The entries are taken by position in the sorted
   * copy, which is what `sortedEntries.indexOf(e)` finds for an entry object.
   */
  method ExportCsv(date: string, es: seq<Entry>) returns (csv: string)
    ensures csv == CsvText(ExportLines(date, es))
  {
    var lines := [DataHeader];
    var sorted := SortForExport(es);
    lines := PushDataLines(lines, date, sorted);
    lines := lines + [[], TotalsHeader];
    var groups := GroupByProject(es);
    lines := PushTotalsLines(lines, NotPauseRows(groups));
    csv := CsvText(lines);
  }

  /** The first loop of exportCSV (app.js:672-693): one line per non-pause entry of the sorted copy. */
  method PushDataLines(lines: seq<seq<string>>, date: string, sorted: seq<Entry>) returns (out: seq<seq<string>>)
    ensures out == lines + DataLines(date, sorted, |sorted|)
  {
    out := lines;
    var k := 0;
    while k < |sorted|
      invariant 0 <= k <= |sorted|
      invariant out == lines + DataLines(date, sorted, k)
    {
      if !IsPause(sorted[k]) {
        var endTime := "";
        if k < |sorted| - 1 && HasStart(sorted[k + 1]) {
          endTime := sorted[k + 1].start;
        }
        var line := [date, sorted[k].project, sorted[k].comment, sorted[k].start, endTime];
        assert line == DataLine(date, sorted, k);
        out := out + [line];
      }
      k := k + 1;
    }
  }

  /** The second loop of exportCSV (app.js:700-702): one line per project total. */
  method PushTotalsLines(lines: seq<seq<string>>, rows: seq<Row>) returns (out: seq<seq<string>>)
    ensures out == lines + TotalsLines(rows)
  {
    out := lines;
    var j := 0;
    while j < |rows|
      invariant 0 <= j <= |rows|
      invariant out == lines + TotalsLines(rows[..j])
    {
      TotalsLinesPrefix(rows, j);
      out := out + [[rows[j].project, IntToString(rows[j].minutes), FormatDuration(rows[j].minutes)]];
      j := j + 1;
    }
    assert rows[..j] == rows;
  }

  lemma TotalsLinesPrefix(rows: seq<Row>, j: nat)
    requires j < |rows|
    ensures TotalsLines(rows[..j + 1]) == TotalsLines(rows[..j]) + [TotalsLine(rows[j])]
  {
    assert rows[..j + 1][..j] == rows[..j];
  }

  // ---------------------------------------------------------------------------
  // What the export promises
  // ---------------------------------------------------------------------------

  /** Each data line belongs to a non-pause entry of the sorted list, in list order. */
  lemma {:induction false} DataLinesFrom(date: string, sorted: seq<Entry>, n: nat, q: nat) returns (k: nat)
    requires n <= |sorted| && q < |DataLines(date, sorted, n)|
    ensures k < n && !IsPause(sorted[k]) && DataLines(date, sorted, n)[q] == DataLine(date, sorted, k)
  {
    var prev := DataLines(date, sorted, n - 1);
    if q < |prev| {
      k := DataLinesFrom(date, sorted, n - 1, q);
    } else {
      k := n - 1;
    }
  }

  /** Each non-pause entry of the sorted list gets its data line. */
  lemma {:induction false} DataLinesCover(date: string, sorted: seq<Entry>, n: nat, k: nat)
    requires k < n <= |sorted| && !IsPause(sorted[k])
    ensures DataLine(date, sorted, k) in DataLines(date, sorted, n)
  {
    if k < n - 1 {
      DataLinesCover(date, sorted, n - 1, k);
    }
  }

  /**
   * The end cell is empty or the valid start of the entry right after, and in
   * the ascending order that start is not earlier than the entry's own; an
   * entry without a valid start always gets an empty end cell.
   */
  lemma EndTimeSpec(es: seq<Entry>, k: nat)
    requires k < |es|
    ensures var sorted := SortForExport(es);
            var end := EndTime(sorted, k);
            && (end != "" ==> k + 1 < |sorted| && end == sorted[k + 1].start && IsTimeString(end))
            && (end != "" ==> HasStart(sorted[k]) && StartMinute(sorted[k]) <= ParseHHMM(end))
            && (k + 1 < |sorted| && HasStart(sorted[k + 1]) ==> end == sorted[k + 1].start)
  {
    var sorted := SortForExport(es);
    SortForExportSpec(es);
    if k + 1 < |sorted| && HasStart(sorted[k + 1]) {
      assert HasStart(sorted[k]);
      assert StartMinute(sorted[k]) <= StartMinute(sorted[k + 1]);
    }
  }

  /** The totals filter keeps every row: groupByProject never names a project `pause`. */
  lemma TotalsFilterKeepsAll(es: seq<Entry>)
    ensures NotPauseRows(ProjectSummary(es)) == ProjectSummary(es)
  {
    ProjectSummaryPlain(es);
    NotPauseRowsKeeps(ProjectSummary(es));
  }

  lemma {:induction false} NotPauseRowsKeeps(rows: seq<Row>)
    requires forall i :: 0 <= i < |rows| ==> AsciiLower(rows[i].project) != "pause"
    ensures NotPauseRows(rows) == rows
  {
    if |rows| > 0 {
      assert forall i :: 0 <= i < |rows[1..]| ==> rows[1..][i] == rows[i + 1];
      NotPauseRowsKeeps(rows[1..]);
      assert rows == [rows[0]] + rows[1..];
    }
  }

  /** Reading the exported text back gives exactly the lines that were written. */
  lemma ExportRoundTrip(date: string, es: seq<Entry>)
    ensures ParseCsv(CsvText(ExportLines(date, es))) == Some(ExportLines(date, es))
  {
    CsvRoundTrip(ExportLines(date, es));
  }

  /**
   * The export's layout: the data header, one line per non-pause entry in
   * ascending order, an empty line, the totals header, and one line for
   * every row of groupByProject, none filtered out.
   */
  lemma ExportLayout(date: string, es: seq<Entry>)
    ensures ExportLines(date, es)
            == [DataHeader] + DataLines(date, SortForExport(es), |es|) + [[], TotalsHeader] + TotalsLines(ProjectSummary(es))
  {
    TotalsFilterKeepsAll(es);
  }
}
