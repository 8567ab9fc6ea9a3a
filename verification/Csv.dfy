/**
 The CSV export, against a reader that follows section 2 of RFC 4180 with a lone line
 feed accepted as record break.
 */
module Csv {
  // ---------------------------------------------------------------- the printer

  predicate NeedsQuotes(s: string) {
    '"' in s || ',' in s || '\r' in s || '\n' in s
  }

  function DoubleQuotes(s: string): string {
    if s == "" then "" else (if s[0] == '"' then "\"\"" else [s[0]]) + DoubleQuotes(s[1..])
  }

  function Escape(s: string): string {
    if NeedsQuotes(s) then "\"" + DoubleQuotes(s) + "\"" else s
  }

  function JoinWith(parts: seq<string>, sep: string): string {
    if parts == [] then "" else if |parts| == 1 then parts[0] else parts[0] + sep + JoinWith(parts[1..], sep)
  }

  function EscapeAll(cells: seq<string>): seq<string> {
    seq(|cells|, i requires 0 <= i < |cells| => Escape(cells[i]))
  }

  function RenderRow(cells: seq<string>): string {
    JoinWith(EscapeAll(cells), ",")
  }

  datatype Issue = Issue(title: string, description: string, status: string, priority: string,
                         labels: seq<string>, estimate: Estimate)

  /** An estimate comes with its printed form. */
  datatype Estimate = NoEstimate | Estimate(printed: string)

  const CSV_COLUMNS: seq<string> := ["Title", "Description", "Status", "Priority", "Labels", "Estimate"]

  function Cells(issue: Issue): seq<string> {
    [issue.title, issue.description, issue.status, issue.priority, JoinWith(issue.labels, ", "),
     if issue.estimate.NoEstimate? then "" else issue.estimate.printed]
  }

  function RenderRows(rows: seq<seq<string>>): seq<string> {
    seq(|rows|, i requires 0 <= i < |rows| => RenderRow(rows[i]))
  }

  function IssueRows(issues: seq<Issue>): seq<seq<string>> {
    seq(|issues|, i requires 0 <= i < |issues| => Cells(issues[i]))
  }

  /** The header is not escaped. */
  function RenderCsv(issues: seq<Issue>): string {
    JoinWith([JoinWith(CSV_COLUMNS, ",")] + RenderRows(IssueRows(issues)), "\n") + "\n"
  }

  // ---------------------------------------------------------------- the reader

  datatype Field = BadField | Field(cell: string, rest: string)

  function Prepend(c: char, f: Field): Field {
    if f.BadField? then f else Field([c] + f.cell, f.rest)
  }

  /** After an opening quote: two quotes stand for one, a single one closes the field. */
  function ReadQuoted(s: string): Field {
    if s == "" then BadField
    else if s[0] != '"' then Prepend(s[0], ReadQuoted(s[1..]))
    else if |s| > 1 && s[1] == '"' then Prepend('"', ReadQuoted(s[2..]))
    else Field("", s[1..])
  }

  /** A field without quotes ends before a comma or a line break. */
  function ReadPlain(s: string): Field {
    if s == "" || s[0] == ',' || s[0] == '\r' || s[0] == '\n' then Field("", s)
    else if s[0] == '"' then BadField
    else Prepend(s[0], ReadPlain(s[1..]))
  }

  function ReadField(s: string): (f: Field)
    ensures f.Field? ==> |f.rest| <= |s|
  {
    if s != "" && s[0] == '"' then QuotedShorter(s[1..]); ReadQuoted(s[1..])
    else PlainShorter(s); ReadPlain(s)
  }

  lemma {:induction false} QuotedShorter(s: string)
    ensures ReadQuoted(s).Field? ==> |ReadQuoted(s).rest| < |s|
  {
    if s != "" {
      QuotedShorter(s[1..]);
      if |s| > 1 { QuotedShorter(s[2..]); }
    }
  }

  lemma {:induction false} PlainShorter(s: string)
    ensures ReadPlain(s).Field? ==> |ReadPlain(s).rest| <= |s|
  {
    if s != "" {
      PlainShorter(s[1..]);
    }
  }

  datatype Record = BadRecord | Record(cells: seq<string>, rest: string)

  function ReadRecord(s: string): (r: Record)
    ensures s != "" && r.Record? ==> |r.rest| < |s|
    decreases |s|
  {
    var f := ReadField(s);
    if f.BadField? then BadRecord
    else if f.rest == "" then Record([f.cell], "")
    else if f.rest[0] == '\n' then Record([f.cell], f.rest[1..])
    else if f.rest[0] == '\r' && |f.rest| > 1 && f.rest[1] == '\n' then Record([f.cell], f.rest[2..])
    else if f.rest[0] == ',' then
      var r := ReadRecord(f.rest[1..]);
      if r.BadRecord? then r else Record([f.cell] + r.cells, r.rest)
    else BadRecord
  }

  datatype Table = BadTable | Table(records: seq<seq<string>>)

  function ReadTable(s: string): Table
    decreases |s|
  {
    if s == "" then Table([])
    else
      var r := ReadRecord(s);
      if r.BadRecord? then BadTable
      else
        var t := ReadTable(r.rest);
        if t.BadTable? then t else Table([r.cells] + t.records)
  }

  // ---------------------------------------------------------------- round trips

  /** What may follow a field: nothing, a comma or a line feed. */
  predicate Ends(rest: string) {
    rest == "" || rest[0] == ',' || rest[0] == '\n'
  }

  lemma ReadQuotedChar(c: char, next: string)
    requires c != '"'
    ensures ReadQuoted([c] + next) == Prepend(c, ReadQuoted(next))
  {
    assert ([c] + next)[1..] == next;
  }

  lemma ReadQuotedPair(next: string)
    ensures ReadQuoted("\"\"" + next) == Prepend('"', ReadQuoted(next))
  {
    assert ("\"\"" + next)[2..] == next;
  }

  lemma ReadQuotedEnd(rest: string)
    requires Ends(rest)
    ensures ReadQuoted("\"" + rest) == Field("", rest)
  {
    assert ("\"" + rest)[1..] == rest;
  }

  lemma DoubleFirst(s: string, rest: string)
    requires s != ""
    ensures DoubleQuotes(s) + rest == (if s[0] == '"' then "\"\"" else [s[0]]) + (DoubleQuotes(s[1..]) + rest)
  {}

  lemma {:induction false} QuotedRoundTrip(s: string, rest: string)
    requires Ends(rest)
    ensures ReadQuoted(DoubleQuotes(s) + ("\"" + rest)) == Field(s, rest)
  {
    var close := "\"" + rest;
    if s == "" {
      assert DoubleQuotes(s) + close == close;
      ReadQuotedEnd(rest);
    } else {
      QuotedRoundTrip(s[1..], rest);
      DoubleFirst(s, close);
      if s[0] == '"' {
        ReadQuotedPair(DoubleQuotes(s[1..]) + close);
      } else {
        ReadQuotedChar(s[0], DoubleQuotes(s[1..]) + close);
      }
      assert [s[0]] + s[1..] == s;
    }
  }

  lemma ReadPlainChar(c: char, next: string)
    requires c != '"' && c != ',' && c != '\r' && c != '\n'
    ensures ReadPlain([c] + next) == Prepend(c, ReadPlain(next))
  {
    assert ([c] + next)[1..] == next;
  }

  lemma {:induction false} PlainRoundTrip(s: string, rest: string)
    requires !NeedsQuotes(s) && Ends(rest)
    ensures ReadPlain(s + rest) == Field(s, rest)
  {
    if s == "" {
      assert s + rest == rest;
    } else {
      assert s[0] in s;
      assert forall c :: c in s[1..] ==> c in s;
      PlainRoundTrip(s[1..], rest);
      ReadPlainChar(s[0], s[1..] + rest);
      assert s == [s[0]] + s[1..] && s + rest == [s[0]] + (s[1..] + rest);
    }
  }

  lemma QuotedCell(s: string, rest: string)
    requires Ends(rest)
    ensures ReadField("\"" + DoubleQuotes(s) + "\"" + rest) == Field(s, rest)
  {
    QuotedRoundTrip(s, rest);
    var inner := DoubleQuotes(s) + ("\"" + rest);
    assert "\"" + DoubleQuotes(s) + "\"" + rest == ['"'] + inner;
    assert (['"'] + inner)[1..] == inner;
  }

  lemma PlainCell(s: string, rest: string)
    requires !NeedsQuotes(s) && Ends(rest)
    ensures ReadField(s + rest) == Field(s, rest)
  {
    PlainRoundTrip(s, rest);
    if s != "" {
      assert s[0] in s;
      assert (s + rest)[0] == s[0];
    } else {
      assert s + rest == rest;
    }
  }

  /** A reader recovers an escaped cell, whatever it contains. */
  lemma CellRoundTrip(s: string, rest: string)
    requires Ends(rest)
    ensures ReadField(Escape(s) + rest) == Field(s, rest)
  {
    if NeedsQuotes(s) {
      QuotedCell(s, rest);
    } else {
      PlainCell(s, rest);
    }
  }

  lemma RenderRowParts(cells: seq<string>, line: string)
    requires cells != []
    ensures RenderRow(cells) + line ==
            Escape(cells[0]) + if |cells| == 1 then line else "," + (RenderRow(cells[1..]) + line)
  {
    if |cells| > 1 {
      assert EscapeAll(cells)[1..] == EscapeAll(cells[1..]);
      Regroup(Escape(cells[0]), ",", RenderRow(cells[1..]), line);
    }
  }

  lemma Regroup(a: string, b: string, c: string, d: string)
    ensures a + b + c + d == a + (b + (c + d))
  {}

  lemma ReadLastCell(s: string, cell: string, rest: string)
    requires ReadField(s) == Field(cell, "\n" + rest)
    ensures ReadRecord(s) == Record([cell], rest)
  {
    assert ("\n" + rest)[1..] == rest;
  }

  lemma ReadNextCell(s: string, cell: string, next: string, cells: seq<string>, rest: string)
    requires ReadField(s) == Field(cell, "," + next) && ReadRecord(next) == Record(cells, rest)
    ensures ReadRecord(s) == Record([cell] + cells, rest)
  {
    assert ("," + next)[1..] == next;
  }

  lemma {:induction false} RowRoundTrip(cells: seq<string>, rest: string)
    requires cells != []
    ensures ReadRecord(RenderRow(cells) + ("\n" + rest)) == Record(cells, rest)
  {
    var line := "\n" + rest;
    RenderRowParts(cells, line);
    if |cells| == 1 {
      LastCell(cells[0], rest);
      assert cells == [cells[0]];
    } else {
      RowRoundTrip(cells[1..], rest);
      NextCell(cells[0], RenderRow(cells[1..]) + line, cells[1..], rest);
      assert cells == [cells[0]] + cells[1..];
    }
  }

  lemma LastCell(cell: string, rest: string)
    ensures ReadRecord(Escape(cell) + ("\n" + rest)) == Record([cell], rest)
  {
    CellRoundTrip(cell, "\n" + rest);
    ReadLastCell(Escape(cell) + ("\n" + rest), cell, rest);
  }

  lemma NextCell(cell: string, next: string, cells: seq<string>, rest: string)
    requires ReadRecord(next) == Record(cells, rest)
    ensures ReadRecord(Escape(cell) + ("," + next)) == Record([cell] + cells, rest)
  {
    CellRoundTrip(cell, "," + next);
    ReadNextCell(Escape(cell) + ("," + next), cell, next, cells, rest);
  }

  lemma RenderRowsParts(rows: seq<seq<string>>)
    requires rows != []
    ensures JoinWith(RenderRows(rows), "\n") + "\n" == RenderRow(rows[0])
              + ("\n" + if |rows| == 1 then "" else JoinWith(RenderRows(rows[1..]), "\n") + "\n")
  {
    if |rows| > 1 {
      assert RenderRows(rows)[1..] == RenderRows(rows[1..]);
    }
  }

  lemma ReadNextRecord(s: string, cells: seq<string>, rest: string, records: seq<seq<string>>)
    requires s != "" && ReadRecord(s) == Record(cells, rest) && ReadTable(rest) == Table(records)
    ensures ReadTable(s) == Table([cells] + records)
  {}

  lemma {:induction false} RowsRoundTrip(rows: seq<seq<string>>)
    requires rows != [] && forall r :: r in rows ==> r != []
    ensures ReadTable(JoinWith(RenderRows(rows), "\n") + "\n") == Table(rows)
  {
    var rest := if |rows| == 1 then "" else JoinWith(RenderRows(rows[1..]), "\n") + "\n";
    assert rows[0] in rows;
    RenderRowsParts(rows);
    RowRoundTrip(rows[0], rest);
    if |rows| > 1 {
      forall r | r in rows[1..] ensures r != [] { assert r in rows; }
      RowsRoundTrip(rows[1..]);
    }
    ReadNextRecord(RenderRow(rows[0]) + ("\n" + rest), rows[0], rest, rows[1..]);
    assert rows == [rows[0]] + rows[1..];
  }

  predicate IsWord(s: string) {
    forall i :: 0 <= i < |s| ==> 'A' <= s[i] <= 'z'
  }

  /** Words of letters need no quotes. */
  lemma WordNeedsNoQuotes(s: string)
    requires IsWord(s)
    ensures Escape(s) == s
  {}

  lemma ColumnsAreWords()
    ensures IsWord("Title") && IsWord("Description") && IsWord("Status")
    ensures IsWord("Priority") && IsWord("Labels") && IsWord("Estimate")
  {}

  lemma HeaderNeedsNoQuotes(columns: seq<string>)
    requires forall c :: c in columns ==> IsWord(c)
    ensures EscapeAll(columns) == columns
  {
    forall i | 0 <= i < |columns| ensures Escape(columns[i]) == columns[i] {
      WordNeedsNoQuotes(columns[i]);
    }
  }

  lemma IssueRowsNotEmpty(issues: seq<Issue>)
    ensures forall r :: r in IssueRows(issues) ==> r != []
  {
    forall i | 0 <= i < |issues| ensures IssueRows(issues)[i] != [] {}
  }

  /** For every list of issues, the reader recovers exactly the header and every cell. */
  lemma CsvRoundTrip(issues: seq<Issue>)
    ensures ReadTable(RenderCsv(issues)) == Table([CSV_COLUMNS] + IssueRows(issues))
  {
    var rows := [CSV_COLUMNS] + IssueRows(issues);
    ColumnsAreWords();
    HeaderNeedsNoQuotes(CSV_COLUMNS);
    IssueRowsNotEmpty(issues);
    assert RenderRows(rows) == [RenderRow(CSV_COLUMNS)] + RenderRows(IssueRows(issues));
    RowsRoundTrip(rows);
  }
}
