/** What the cells of an exported row hold, and which of them are quoted. */
module CsvCells {
  import opened Csv

  /** The labels in one cell: nothing for none, the label for one, and joined lists are separated by a comma and a space. */
  lemma LabelsJoin(a: seq<string>, b: seq<string>)
    ensures JoinWith([], ", ") == ""
    ensures |a| == 1 ==> JoinWith(a, ", ") == a[0]
    ensures a != [] && b != [] ==> JoinWith(a + b, ", ") == JoinWith(a, ", ") + ", " + JoinWith(b, ", ")
  {
    if a != [] && b != [] {
      JoinAppend(a, b, ", ");
    }
  }

  lemma {:induction false} JoinAppend(a: seq<string>, b: seq<string>, sep: string)
    requires a != [] && b != []
    ensures JoinWith(a + b, sep) == JoinWith(a, sep) + sep + JoinWith(b, sep)
    decreases |a|
  {
    assert (a + b)[1..] == a[1..] + b;
    if |a| > 1 {
      JoinAppend(a[1..], b, sep);
      Regroup4(a[0], sep, JoinWith(a[1..], sep), JoinWith(b, sep));
    } else {
      assert a[1..] + b == b;
    }
  }

  lemma Regroup4(first: string, sep: string, rest: string, last: string)
    ensures first + sep + (rest + sep + last) == first + sep + rest + sep + last
  {}

  /** A cell is written as it is exactly if it has no quote, comma, carriage return or line feed. */
  lemma QuotedOnlyIfNeeded(s: string)
    ensures Escape(s) == s <==> forall i :: 0 <= i < |s| ==> s[i] != '"' && s[i] != ',' && s[i] != '\r' && s[i] != '\n'
  {
    DoubledLonger(s);
    if NeedsQuotes(s) {
      assert |Escape(s)| > |s|;
      var c :| c in s && (c == '"' || c == ',' || c == '\r' || c == '\n');
      var i :| 0 <= i < |s| && s[i] == c;
    }
  }

  lemma {:induction false} DoubledLonger(s: string)
    ensures |DoubleQuotes(s)| >= |s|
  {
    if s != "" { DoubledLonger(s[1..]); }
  }

  /**
   For every list of issues a reader after section 2 of RFC 4180 recovers one record with the
   six column names and then, for each issue in order, its title, description, status, priority,
   labels and estimate, which is empty if there is none.
   */
  lemma ExportIsRead(issues: seq<Issue>)
    ensures var t := ReadTable(RenderCsv(issues));
      && t.Table? && |t.records| == 1 + |issues|
      && t.records[0] == ["Title", "Description", "Status", "Priority", "Labels", "Estimate"]
      && forall i :: 0 <= i < |issues| ==>
           t.records[i + 1] == [issues[i].title, issues[i].description, issues[i].status, issues[i].priority,
                                JoinWith(issues[i].labels, ", "),
                                match issues[i].estimate case NoEstimate => "" case Estimate(printed) => printed]
  {
    CsvRoundTrip(issues);
    forall i | 0 <= i < |issues|
      ensures ReadTable(RenderCsv(issues)).records[i + 1] == Cells(issues[i])
    {
      assert ([CSV_COLUMNS] + IssueRows(issues))[i + 1] == IssueRows(issues)[i];
    }
  }

  /** The cells of an issue in their written form, with commas between them and a line feed behind them. */
  function Line(issue: Issue): string {
    Escape(issue.title) + "," + Escape(issue.description) + "," + Escape(issue.status) + "," + Escape(issue.priority)
    + "," + Escape(JoinWith(issue.labels, ", "))
    + "," + Escape(match issue.estimate case NoEstimate => "" case Estimate(printed) => printed) + "\n"
  }

  lemma RowIs(issue: Issue)
    ensures RenderRow(Cells(issue)) + "\n" == Line(issue)
  {
    var c := EscapeAll(Cells(issue));
    assert c == [c[0], c[1], c[2], c[3], c[4], c[5]];
    JoinSix(c[0], c[1], c[2], c[3], c[4], c[5]);
  }

  lemma JoinSix(a: string, b: string, c: string, d: string, e: string, f: string)
    ensures JoinWith([a, b, c, d, e, f], ",") == a + "," + b + "," + c + "," + d + "," + e + "," + f
  {
    JoinLast([a], b);
    assert [a] + [b] == [a, b];
    JoinLast([a, b], c);
    assert [a, b] + [c] == [a, b, c];
    JoinLast([a, b, c], d);
    assert [a, b, c] + [d] == [a, b, c, d];
    JoinLast([a, b, c, d], e);
    assert [a, b, c, d] + [e] == [a, b, c, d, e];
    JoinLast([a, b, c, d, e], f);
    assert [a, b, c, d, e] + [f] == [a, b, c, d, e, f];
  }

  lemma JoinLast(parts: seq<string>, last: string)
    requires parts != []
    ensures JoinWith(parts + [last], ",") == JoinWith(parts, ",") + "," + last
  {
    JoinAppend(parts, [last], ",");
  }

  /** The exported text is a line of column names and then a line for each issue in order, each ended by a line feed. */
  lemma ExportIs(issues: seq<Issue>, issue: Issue)
    ensures RenderCsv([]) ==
            "Title" + "," + "Description" + "," + "Status" + "," + "Priority" + "," + "Labels" + "," + "Estimate" + "\n"
    ensures RenderCsv(issues + [issue]) == RenderCsv(issues) + Line(issue)
  {
    JoinSix("Title", "Description", "Status", "Priority", "Labels", "Estimate");
    var head := JoinWith(CSV_COLUMNS, ",");
    assert [head] + RenderRows(IssueRows([])) == [head];
    var lines, row := [head] + RenderRows(IssueRows(issues)), RenderRow(Cells(issue));
    RowsSnoc(issues, issue);
    assert [head] + RenderRows(IssueRows(issues + [issue])) == lines + [row];
    JoinAppend(lines, [row], "\n");
    RowIs(issue);
    RegroupLine(JoinWith(lines, "\n"), row);
  }

  lemma RowsSnoc(issues: seq<Issue>, issue: Issue)
    ensures RenderRows(IssueRows(issues + [issue])) == RenderRows(IssueRows(issues)) + [RenderRow(Cells(issue))]
  {
    assert IssueRows(issues + [issue]) == IssueRows(issues) + [Cells(issue)];
  }

  lemma RegroupLine(lines: string, row: string)
    ensures lines + "\n" + row + "\n" == lines + "\n" + (row + "\n")
  {}
}
