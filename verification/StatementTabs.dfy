/** Pasted statements with tabs: trimming a row takes its outer tabs, and with them the empty cells at its ends. */
module StatementTabs {
  import opened Common
  import opened Text
  import opened Csv
  import opened Statement
  import opened StatementColumns

  /** The row from its first cell that is not empty. */
  function WithoutFront(row: seq<string>): seq<string> {
    if row != [] && row[0] == "" then WithoutFront(row[1..]) else row
  }

  /** The row up to its last cell that is not empty. */
  function WithoutBack(row: seq<string>): seq<string> {
    if row != [] && row[|row| - 1] == "" then WithoutBack(row[..|row| - 1]) else row
  }

  /** What is left of the row to read. */
  function Seen(row: seq<string>): seq<string> {
    WithoutBack(WithoutFront(row))
  }

  function Tabbed(row: seq<string>): string {
    RowText(row, '\t')
  }

  // ----- trimming a row

  lemma JoinFirst(cell: string, rest: seq<string>)
    requires rest != []
    ensures Tabbed([cell] + rest) == cell + (['\t'] + Tabbed(rest))
  {
    assert ([cell] + rest)[1..] == rest;
  }

  lemma {:induction false} JoinLast(front: seq<string>, cell: string)
    requires front != []
    ensures Tabbed(front + [cell]) == Tabbed(front) + ['\t'] + cell
  {
    if |front| == 1 {
      JoinFirst(front[0], [cell]);
    } else {
      JoinLast(front[1..], cell);
      JoinFirst(front[0], front[1..] + [cell]);
      JoinFirst(front[0], front[1..]);
      assert front + [cell] == [front[0]] + (front[1..] + [cell]);
      assert front == [front[0]] + front[1..];
    }
  }

  lemma {:induction false} TrimStartOfRow(row: seq<string>)
    requires PlainRow(row)
    ensures TrimStart(Tabbed(row)) == Tabbed(WithoutFront(row))
  {
    if row == [] {
    } else if row[0] == "" {
      TrimStartOfRow(row[1..]);
      if |row| >= 2 {
        JoinFirst("", row[1..]);
        assert row == [""] + row[1..];
        assert Tabbed(row)[1..] == Tabbed(row[1..]);
      }
    } else {
      assert PlainCell(row[0]);
      if |row| >= 2 {
        JoinFirst(row[0], row[1..]);
        assert row == [row[0]] + row[1..];
      }
      assert Tabbed(row)[0] == row[0][0];
    }
  }

  lemma {:induction false} TrimEndOfRow(row: seq<string>)
    requires PlainRow(row)
    ensures TrimEnd(Tabbed(row)) == Tabbed(WithoutBack(row))
  {
    if row == [] {
    } else {
      var n := |row| - 1;
      var last, text := row[n], Tabbed(row);
      assert row == row[..n] + [last];
      if n > 0 {
        JoinLast(row[..n], last);
      }
      if last == "" {
        TrimEndOfRow(row[..n]);
        if n > 0 {
          assert text[..|text| - 1] == Tabbed(row[..n]);
        }
      } else {
        assert PlainCell(last);
        assert text[|text| - 1] == last[|last| - 1];
      }
    }
  }

  lemma {:induction false} PlainFront(row: seq<string>)
    requires PlainRow(row)
    ensures PlainRow(WithoutFront(row))
    ensures WithoutFront(row) != [] ==> WithoutFront(row)[0] != ""
  {
    hide PlainCell;
    if row != [] && row[0] == "" {
      PlainFront(row[1..]);
    }
  }

  lemma {:induction false} PlainBack(row: seq<string>)
    requires PlainRow(row)
    ensures PlainRow(WithoutBack(row)) && |WithoutBack(row)| <= |row|
    ensures WithoutBack(row) != [] ==> WithoutBack(row)[|WithoutBack(row)| - 1] != ""
    ensures row != [] && row[0] != "" ==> WithoutBack(row) != [] && WithoutBack(row)[0] == row[0]
  {
    hide PlainCell;
    if row != [] && row[|row| - 1] == "" {
      PlainBack(row[..|row| - 1]);
    }
  }

  lemma {:induction false} TrimmedRow(row: seq<string>)
    requires PlainRow(row)
    ensures Trim(Tabbed(row)) == Tabbed(Seen(row)) && PlainRow(Seen(row))
    ensures Tabbed(Seen(row)) == "" <==> Seen(row) == []
  {
    hide PlainRow, Tabbed, TrimStart, TrimEnd, WithoutFront, WithoutBack;
    TrimStartOfRow(row);
    PlainFront(row);
    TrimEndOfRow(WithoutFront(row));
    PlainBack(WithoutFront(row));
    RowIsBlank(Seen(row));
  }

  lemma RowIsBlank(row: seq<string>)
    requires row != [] ==> row[0] != ""
    ensures Tabbed(row) == "" <==> row == []
  {
    if |row| >= 2 {
      JoinFirst(row[0], row[1..]);
      assert row == [row[0]] + row[1..];
    }
  }

  // ----- reading a pasted table

  /** The rows of the table that are read: what is left of each, without those that are blank. */
  function SeenRows(table: seq<seq<string>>): seq<seq<string>> {
    if table == [] then []
    else (if Seen(table[0]) == [] then [] else [Seen(table[0])]) + SeenRows(table[1..])
  }

  predicate PlainRows(table: seq<seq<string>>) {
    forall i | 0 <= i < |table| :: PlainRow(table[i]) && table[i] != []
  }

  function NonBlank(lines: seq<string>): seq<string> {
    Filter((r: string) => r != "", Map(Trim, lines))
  }

  lemma {:induction false} SeenLines(table: seq<seq<string>>)
    requires PlainRows(table)
    ensures NonBlank(TableLines(table, '\t')) == TableLines(SeenRows(table), '\t')
    ensures PlainRows(SeenRows(table))
  {
    hide PlainRow, Seen, Trim, RowText;
    if table != [] {
      SeenLines(table[1..]);
      TrimmedRow(table[0]);
      var first, rest := Trim(Tabbed(table[0])), Map(Trim, TableLines(table[1..], '\t'));
      FilterCons((r: string) => r != "", first, rest);
      assert Map(Trim, TableLines(table, '\t')) == [first] + rest;
      assert TableLines([Seen(table[0])] + SeenRows(table[1..]), '\t') == [Tabbed(Seen(table[0]))] + TableLines(SeenRows(table[1..]), '\t');
    }
  }

  lemma {:induction false} LinesOfTable(table: seq<seq<string>>, end: string)
    requires PlainRows(table) && table != [] && LineEnd(end)
    ensures Rows(Join(TableLines(table, '\t'), end)) == TableLines(SeenRows(table), '\t')
  {
    hide PlainRow, RowText, SeenRows;
    forall i | 0 <= i < |table|
      ensures OneLine(TableLines(table, '\t')[i])
    {
      PlainRowIsOneLine(table[i], '\t');
    }
    SplitLinesOfJoin(TableLines(table, '\t'), end);
    SeenLines(table);
  }

  lemma {:induction false} OneColumnIsIncomplete(header: seq<string>)
    requires |header| == 1
    ensures !Complete(Names(header))
  {
    if Complete(Names(header)) {
      TwoColumns(Names(header));
    }
  }

  lemma {:induction false} RecordsOfLines(rows: seq<seq<string>>)
    requires PlainRows(rows)
    ensures Records(TableLines(rows, '\t'), '\t') == rows
  {
    hide PlainRow, RowText, FieldsOf;
    forall i | 0 <= i < |rows|
      ensures FieldsOf(RowText(rows[i], '\t'), '\t') == rows[i]
    {
      PlainRowReads(rows[i], '\t');
    }
  }

  function ImportSeen(seen: seq<seq<string>>): ParseResult {
    if seen == [] then ParseResult([], []) else Import(Names(seen[0]), seen[1..])
  }

  lemma {:induction false} LinesAreImported(seen: seq<seq<string>>)
    requires PlainRows(seen) && seen != []
    ensures var lines := TableLines(seen, '\t'); var d := DelimiterOf(lines[0]);
            Import(HeaderOf(lines[0], d), Records(lines[1..], d)) == ImportSeen(seen)
  {
    hide PlainRow, RowText, FieldsOf, DelimiterOf, Complete, LinesOf, ProblemsOf, PlacesOf;
    var lines := TableLines(seen, '\t');
    assert lines[1..] == TableLines(seen[1..], '\t');
    if |seen[0]| == 1 {
      OneColumnIsIncomplete(seen[0]);
      OneOfThree(lines[0]);
      OneCellReads(seen[0], DelimiterOf(lines[0]));
    } else {
      PlainDelimiter(seen[0], '\t');
      PlainRowReads(seen[0], '\t');
      RecordsOfLines(seen[1..]);
    }
  }

  lemma OneOfThree(row: string)
    ensures IsDelimiter(DelimiterOf(row))
  {
  }

  lemma OneCellReads(row: seq<string>, d: char)
    requires PlainRow(row) && |row| == 1 && IsDelimiter(d)
    ensures FieldsOf(RowText(row, '\t'), d) == row
  {
    hide PlainRow, FieldsOf;
    assert RowText(row, '\t') == RowText(row, d);
    PlainRowReads(row, d);
  }

  /**
   * Reading the tab-separated paste of a plain table is importing what is left of its rows once the empty cells at their ends
   * are gone: blank rows are skipped, and a row that began with empty cells is read from its first filled one.
   */
  lemma {:induction false} TabPasteIsWhatIsSeen(header: seq<string>, rows: seq<seq<string>>, end: string)
    requires PlainTable(header, rows) && header != [] && LineEnd(end)
    ensures Parsed(TableText(header, rows, Format('\t', end))) == ImportSeen(SeenRows([header] + rows))
  {
    hide PlainRow, Rows, SeenRows, Import, TableLines, DelimiterOf, HeaderOf, Records, ImportSeen;
    var table := [header] + rows;
    forall i | 0 <= i < |table|
      ensures PlainRow(table[i]) && table[i] != []
    {
      assert i > 0 ==> table[i] == rows[i - 1];
    }
    LinesOfTable(table, end);
    SeenLines(table);
    var seen := SeenRows(table);
    SameLength(seen);
    if seen == [] {
      NothingSeen();
    } else {
      LinesAreImported(seen);
    }
  }

  lemma SameLength(seen: seq<seq<string>>)
    ensures |TableLines(seen, '\t')| == |seen|
  {
  }

  lemma NothingSeen()
    ensures ImportSeen([]) == ParseResult([], [])
  {
  }

  // ----- which records keep their places

  predicate AllEmpty(row: seq<string>) {
    forall i | 0 <= i < |row| :: row[i] == ""
  }

  lemma {:induction false} BackKeepsPlaces(row: seq<string>, k: nat)
    ensures Cell(WithoutBack(row), k) == Cell(row, k)
  {
    if row != [] && row[|row| - 1] == "" {
      BackKeepsPlaces(row[..|row| - 1], k);
    }
  }

  lemma {:induction false} EmptyFront(row: seq<string>)
    ensures WithoutFront(row) == [] <==> AllEmpty(row)
    ensures |WithoutFront(row)| <= |row| && (row != [] && row[0] == "" ==> |WithoutFront(row)| < |row|)
    ensures WithoutFront(row) != [] ==> WithoutFront(row)[0] != ""
    ensures row != [] && row[0] != "" ==> WithoutFront(row) == row
  {
    if row != [] && row[0] == "" {
      EmptyFront(row[1..]);
      assert forall i | 0 < i < |row| :: row[i] == row[1..][i - 1];
    }
  }

  /** Every column of a tab-separated record is read from its own place exactly when its first cell is filled, or all are empty. */
  lemma {:induction false} KeepsPlacesIff(row: seq<string>)
    requires row != []
    ensures (forall k: nat :: Cell(Seen(row), k) == Cell(row, k)) <==> row[0] != "" || AllEmpty(row)
  {
    hide WithoutBack, WithoutFront;
    EmptyFront(row);
    forall k: nat
      ensures Cell(Seen(row), k) == Cell(WithoutFront(row), k)
    {
      BackKeepsPlaces(WithoutFront(row), k);
    }
    if row[0] == "" && !AllEmpty(row) {
      assert Cell(Seen(row), 0) == Cell(WithoutFront(row), 0) != "";
      assert Cell(row, 0) == "";
    }
  }

  predicate StartsFilled(rows: seq<seq<string>>) {
    forall i | 0 <= i < |rows| :: rows[i] != [] && rows[i][0] != ""
  }

  lemma {:induction false} FilledRowsAreSeen(rows: seq<seq<string>>)
    requires StartsFilled(rows)
    ensures |SeenRows(rows)| == |rows|
    ensures forall i | 0 <= i < |rows| :: SeenRows(rows)[i] == Seen(rows[i]) && |Seen(rows[i])| <= |rows[i]|
  {
    if rows != [] {
      FilledRowsAreSeen(rows[1..]);
      EmptyFront(rows[0]);
      BackKeepsPlaces(rows[0], 0);
      BackIsShorter(rows[0]);
      hide WithoutFront, WithoutBack;
    }
  }

  lemma {:induction false} BackIsShorter(row: seq<string>)
    ensures |WithoutBack(row)| <= |row|
    ensures row != [] && row[|row| - 1] != "" ==> WithoutBack(row) == row
    ensures row != [] && row[0] != "" ==> WithoutBack(row) != []
  {
    if row != [] && row[|row| - 1] == "" {
      BackIsShorter(row[..|row| - 1]);
    }
  }

  lemma {:induction false} SeenLine(row: seq<string>, places: Places)
    requires row != [] && row[0] != ""
    ensures LineOf(Seen(row), places) == LineOf(row, places)
  {
    hide Seen, Cell, Upper;
    KeepsPlacesIff(row);
  }

  /** When the header is filled at both ends and every record in its first column, the paste is the table, as with the other delimiters. */
  lemma {:induction false} TabPasteIsTheTable(header: seq<string>, rows: seq<seq<string>>, end: string)
    requires PlainTable(header, rows) && LineEnd(end)
    requires header != [] && header[|header| - 1] != "" && StartsFilled([header] + rows)
    ensures Parsed(TableText(header, rows, Format('\t', end))) == Import(Names(header), rows)
  {
    var table := [header] + rows;
    assert table[0] == header;
    TabPasteIsWhatIsSeen(header, rows, end);
    FilledRowsAreSeen(table);
    EmptyFront(header);
    BackIsShorter(header);
    hide Parsed, TableText, SeenRows, Seen, PlainRow, Complete, PlacesOf, LineOf, Lower, LinesOf, ProblemsOf;
    var seen := SeenRows(table);
    assert Seen(table[0]) == header by { SeenHeader(header); }
    if Complete(Names(header)) {
      var places := PlacesOf(Names(header));
      forall i | 0 <= i < |rows|
        ensures |seen[1..][i]| <= |header| && |rows[i]| <= |header| && LineOf(seen[1..][i], places) == LineOf(rows[i], places)
      {
        assert table[i + 1] == rows[i];
        SeenLine(rows[i], places);
      }
      SameLinesSameImport(seen[1..], rows, |header|, places, places);
    }
  }

  lemma SeenHeader(header: seq<string>)
    requires header != [] && header[0] != "" && header[|header| - 1] != ""
    ensures Seen(header) == header
  {
    EmptyFront(header);
    BackIsShorter(header);
  }
}
