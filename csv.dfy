/**
 * The CSV text exportCSV writes (app.js:704): every cell between double
 * quotes with inner quotes doubled, cells separated by `;`, lines by a
 * newline. A reader for that format shows that the text determines the
 * cells exactly, whatever quotes, semicolons or newlines they contain.
 */
module Csv {
  import opened Base
  import opened Text

  /** `s.replace(/"/g, '""')`. */
  function DoubleQuotes(s: string): (r: string)
    ensures |r| >= |s|
  {
    if |s| == 0 then "" else (if s[0] == '"' then "\"\"" else [s[0]]) + DoubleQuotes(s[1..])
  }

  /** One cell: `'"' + String(cell).replace(/"/g, '""') + '"'`. */
  function QuoteCell(s: string): (r: string)
    ensures |r| >= 2 && r[0] == '"' && r[|r| - 1] == '"'
  {
    "\"" + DoubleQuotes(s) + "\""
  }

  function QuoteAll(row: seq<string>): (r: seq<string>)
    ensures |r| == |row| && forall i :: 0 <= i < |row| ==> r[i] == QuoteCell(row[i])
  {
    if |row| == 0 then [] else [QuoteCell(row[0])] + QuoteAll(row[1..])
  }

  /** `row.map(quote).join(';')`. */
  function RowText(row: seq<string>): string
  {
    Join(QuoteAll(row), ";")
  }

  function RowTexts(lines: seq<seq<string>>): (r: seq<string>)
    ensures |r| == |lines| && forall i :: 0 <= i < |lines| ==> r[i] == RowText(lines[i])
  {
    if |lines| == 0 then [] else [RowText(lines[0])] + RowTexts(lines[1..])
  }

  /** `lines.map(row => …).join('\n')`. */
  function CsvText(lines: seq<seq<string>>): string
  {
    Join(RowTexts(lines), "\n")
  }

  // ---------------------------------------------------------------------------
  // Reading the format back
  // ---------------------------------------------------------------------------

  /**
   * The rest of a quoted cell after its opening quote: the cell's text, with
   * `""` read as one quote, and what follows the closing quote.
   */
  function ReadQuoted(s: string): (r: Option<(string, string)>)
    ensures r.Some? ==> |r.value.1| < |s|
  {
    if |s| == 0 then None
    else if s[0] == '"' then
      if |s| >= 2 && s[1] == '"' then
        match ReadQuoted(s[2..]) case None => None case Some(p) => Some(("\"" + p.0, p.1))
      else Some(("", s[1..]))
    else
      match ReadQuoted(s[1..]) case None => None case Some(p) => Some(([s[0]] + p.0, p.1))
  }

  function ReadCell(s: string): (r: Option<(string, string)>)
    ensures r.Some? ==> |r.value.1| < |s|
  {
    if |s| > 0 && s[0] == '"' then ReadQuoted(s[1..]) else None
  }

  /** One or more cells separated by `;`, up to the end of the line. */
  function ReadCells(s: string): (r: Option<(seq<string>, string)>)
    ensures r.Some? ==> |r.value.1| < |s|
    decreases |s|
  {
    match ReadCell(s)
    case None => None
    case Some(p) =>
      if |p.1| > 0 && p.1[0] == ';' then
        match ReadCells(p.1[1..]) case None => None case Some(q) => Some(([p.0] + q.0, q.1))
      else Some(([p.0], p.1))
  }

  /** A line: no cells at all when it is empty. */
  function ReadRow(s: string): (r: Option<(seq<string>, string)>)
    ensures r.Some? ==> |r.value.1| <= |s|
  {
    if s == "" || s[0] == '\n' then Some(([], s)) else ReadCells(s)
  }

  function ParseCsv(s: string): Option<seq<seq<string>>>
    decreases |s|
  {
    match ReadRow(s)
    case None => None
    case Some(p) =>
      if p.1 == "" then Some([p.0])
      else if p.1[0] == '\n' then
        match ParseCsv(p.1[1..]) case None => None case Some(rows) => Some([p.0] + rows)
      else None
  }

  lemma {:induction false} ReadQuotedDoubled(x: string, rest: string)
    requires rest == "" || rest[0] != '"'
    ensures ReadQuoted(DoubleQuotes(x) + "\"" + rest) == Some((x, rest))
  {
    if |x| == 0 {
      var s := "\"" + rest;
      assert DoubleQuotes(x) + "\"" + rest == s;
      assert s[1..] == rest;
    } else {
      ReadQuotedDoubled(x[1..], rest);
      var t := DoubleQuotes(x[1..]) + "\"" + rest;
      var head := if x[0] == '"' then "\"\"" else [x[0]];
      assert DoubleQuotes(x) == head + DoubleQuotes(x[1..]);
      Regroup(head, DoubleQuotes(x[1..]), "\"", rest);
      if x[0] == '"' {
        ReadQuotedPair(t);
      } else {
        ReadQuotedPlain(x[0], t);
      }
      assert x == [x[0]] + x[1..];
    }
  }

  lemma Regroup<T>(a: seq<T>, b: seq<T>, c: seq<T>, d: seq<T>)
    ensures (a + b) + c + d == a + (b + c + d)
  {
  }

  /** A doubled quote inside a cell is read as one quote. */
  lemma ReadQuotedPair(t: string)
    ensures ReadQuoted("\"\"" + t)
            == match ReadQuoted(t) case None => None case Some(p) => Some(("\"" + p.0, p.1))
  {
    assert ("\"\"" + t)[2..] == t;
  }

  /** Any other character inside a cell stands for itself. */
  lemma ReadQuotedPlain(c: char, t: string)
    requires c != '"'
    ensures ReadQuoted([c] + t)
            == match ReadQuoted(t) case None => None case Some(p) => Some(([c] + p.0, p.1))
  {
    assert ([c] + t)[1..] == t;
  }

  lemma ReadCellQuoted(x: string, rest: string)
    requires rest == "" || rest[0] != '"'
    ensures ReadCell(QuoteCell(x) + rest) == Some((x, rest))
  {
    var s := QuoteCell(x) + rest;
    assert s[1..] == DoubleQuotes(x) + "\"" + rest;
    ReadQuotedDoubled(x, rest);
  }

  lemma {:induction false} ReadCellsRow(row: seq<string>, rest: string)
    requires |row| >= 1
    requires rest == "" || rest[0] == '\n'
    ensures ReadCells(RowText(row) + rest) == Some((row, rest))
  {
    if |row| == 1 {
      assert RowText(row) == QuoteCell(row[0]);
      ReadCellQuoted(row[0], rest);
      assert row == [row[0]];
    } else {
      var tail := RowText(row[1..]) + rest;
      RowTextCons(row);
      assert RowText(row) + rest == QuoteCell(row[0]) + ";" + tail;
      ReadCellsRow(row[1..], rest);
      ReadCellsStep(row[0], tail);
      assert row == [row[0]] + row[1..];
    }
  }

  /** A row of two or more cells is its first quoted cell, a `;` and the rest of the row. */
  lemma RowTextCons(row: seq<string>)
    requires |row| >= 2
    ensures RowText(row) == QuoteCell(row[0]) + ";" + RowText(row[1..])
  {
    assert QuoteAll(row)[1..] == QuoteAll(row[1..]);
  }

  /** Reading a quoted cell followed by `;` goes on with the cells after it. */
  lemma ReadCellsStep(x: string, tail: string)
    ensures ReadCells(QuoteCell(x) + ";" + tail)
            == match ReadCells(tail) case None => None case Some(q) => Some(([x] + q.0, q.1))
  {
    var after := ";" + tail;
    assert QuoteCell(x) + ";" + tail == QuoteCell(x) + after;
    ReadCellQuoted(x, after);
    assert after[1..] == tail;
  }

  lemma ReadRowText(row: seq<string>, rest: string)
    requires rest == "" || rest[0] == '\n'
    ensures ReadRow(RowText(row) + rest) == Some((row, rest))
  {
    if |row| == 0 {
      assert RowText(row) + rest == rest;
    } else {
      ReadCellsRow(row, rest);
      var t := RowText(row);
      assert QuoteAll(row)[0] == QuoteCell(row[0]);
      JoinStartsWith(QuoteAll(row), ";");
      assert (t + rest)[0] == '"';
    }
  }

  /** A join of quoted cells starts with the first cell's opening quote. */
  lemma JoinStartsWith(parts: seq<string>, sep: string)
    requires |parts| >= 1 && |parts[0]| >= 1
    ensures |Join(parts, sep)| >= 1 && Join(parts, sep)[0] == parts[0][0]
  {
  }

  /**
   * Round trip: reading the export text back gives exactly the lines and
   * cells that were written.
   */
  lemma {:induction false} CsvRoundTrip(lines: seq<seq<string>>)
    requires |lines| >= 1
    ensures ParseCsv(CsvText(lines)) == Some(lines)
  {
    if |lines| == 1 {
      assert CsvText(lines) == RowText(lines[0]) + "";
      ReadRowText(lines[0], "");
      assert lines == [lines[0]];
    } else {
      var tail := CsvText(lines[1..]);
      assert RowTexts(lines)[1..] == RowTexts(lines[1..]);
      assert CsvText(lines) == RowText(lines[0]) + ("\n" + tail);
      ReadRowText(lines[0], "\n" + tail);
      assert ("\n" + tail)[1..] == tail;
      CsvRoundTrip(lines[1..]);
      assert lines == [lines[0]] + lines[1..];
    }
  }
}
