/**
 * The bookings list as a CSV file, and its text read back line by line. A column is its header and its cell text for a row
 * (`String(value)`, or nothing for a missing value). The columns themselves are parameters: those everyone gets, and the net
 * columns that are added for a caller who may see them.
 */
module BookingExport {
  import opened Common
  import opened Text
  import opened Csv
  import Money

  datatype Column<!R> = Column(header: string, value: R -> Option<string>)

  const BYTE_ORDER_MARK: string := "\U{FEFF}"

  function Columns<R>(base: seq<Column<R>>, net: seq<Column<R>>, canViewNet: bool): seq<Column<R>> {
    if canViewNet then base + net else base
  }

  function HeaderCells<R>(columns: seq<Column<R>>): (r: seq<Option<string>>)
    ensures |r| == |columns|
  {
    Map((c: Column<R>) => Some(c.header), columns)
  }

  function RowCells<R>(columns: seq<Column<R>>, row: R): (r: seq<Option<string>>)
    ensures |r| == |columns|
  {
    Map((c: Column<R>) => c.value(row), columns)
  }

  /** The cells of the file: the header first, then one line for each row. */
  function Table<R>(columns: seq<Column<R>>, rows: seq<R>): (r: seq<seq<Option<string>>>)
    ensures |r| == |rows| + 1 && forall i | 0 <= i < |r| :: |r[i]| == |columns|
  {
    [HeaderCells(columns)] + Map((row: R) => RowCells(columns, row), rows)
  }

  function FileText(table: seq<seq<Option<string>>>): string {
    BYTE_ORDER_MARK + Join(Map(PrintRow, table), "\r\n") + "\r\n"
  }

  /** `bookingExportCsv`. */
  method BookingExportCsv<R>(rows: seq<R>, base: seq<Column<R>>, net: seq<Column<R>>, canViewNet: bool) returns (text: string)
    ensures text == FileText(Table(Columns(base, net, canViewNet), rows))
  {
    hide PrintRow, Join, HeaderCells, RowCells;
    var columns := Columns(base, net, canViewNet);
    var lines := [PrintRow(HeaderCells(columns))];
    ghost var table := Table(columns, rows);
    for i := 0 to |rows|
      invariant |lines| == i + 1
      invariant forall k | 0 <= k <= i :: lines[k] == PrintRow(table[k])
    {
      lines := lines + [PrintRow(RowCells(columns, rows[i]))];
    }
    assert lines == Map(PrintRow, table);
    text := BYTE_ORDER_MARK + Join(lines, "\r\n") + "\r\n";
  }

  // ----- printed lines

  lemma {:induction false} CellIsTrimmed(value: Option<string>)
    ensures Trimmed(CsvCell(value))
  {
    if value.Some? {
      var text := SafeText(value.value);
      hide SafeText, Doubled, Trim;
      TrimOfTrimmed(text);
    }
  }

  lemma {:induction false} PrintedRowIsTrimmed(cells: seq<Option<string>>)
    ensures Trimmed(PrintRow(cells)) && OneLine(PrintRow(cells))
    ensures |cells| >= 2 ==> PrintRow(cells) != ""
  {
    if cells == [] {
    } else {
      hide CsvCell;
      CellIsTrimmed(cells[0]);
      CellIsOneLine(cells[0]);
      if |cells| == 1 {
        assert Map(CsvCell, cells) == [CsvCell(cells[0])];
      } else {
        PrintRowStep(cells);
        PrintedRowIsTrimmed(cells[1..]);
        TrimmedAround(CsvCell(cells[0]), ',', PrintRow(cells[1..]));
        assert [','] == ",";
      }
    }
  }

  lemma {:induction false} JoinWithFirst(front: string, lines: seq<string>, end: string)
    requires lines != []
    ensures Join([front + lines[0]] + lines[1..], end) == front + Join(lines, end)
  {
    assert ([front + lines[0]] + lines[1..])[1..] == lines[1..];
  }

  lemma TrimMark(line: string)
    requires Trimmed(line)
    ensures Trim(BYTE_ORDER_MARK + line) == line
  {
    assert (BYTE_ORDER_MARK + line)[1..] == line;
    TrimOfTrimmed(line);
  }

  predicate FileLine(line: string) {
    Trimmed(line) && OneLine(line) && line != ""
  }

  lemma {:induction false} RowsOfFile(lines: seq<string>)
    requires lines != [] && forall i | 0 <= i < |lines| :: FileLine(lines[i])
    ensures Rows(BYTE_ORDER_MARK + Join(lines, "\r\n") + "\r\n") == lines
  {
    hide Trim, Trimmed;
    var nonBlank := (r: string) => r != "";
    var marked := [BYTE_ORDER_MARK + lines[0]] + lines[1..];
    JoinWithFirst(BYTE_ORDER_MARK, lines, "\r\n");
    JoinWithLast(marked, "\r\n");
    MarkedIsOneLine(lines[0]);
    SplitLinesOfJoin(marked + [""], "\r\n");
    TrimMark(lines[0]);
    MapTrimmed(lines);
    TrimNothing();
    assert Map(Trim, marked + [""]) == lines + [""];
    FilterAppend(nonBlank, lines, [""]);
    FilterAll(nonBlank, lines);
  }

  lemma MarkedIsOneLine(line: string)
    requires OneLine(line)
    ensures OneLine(BYTE_ORDER_MARK + line)
  {
  }

  /**
   * The exported file, read line by line, is the table: as many lines as rows and one header,
   * and every line reads back as the shown texts of its cells, so as many fields as there are columns.
   */
  lemma {:induction false} ExportReadsBack<R>(columns: seq<Column<R>>, rows: seq<R>)
    requires |columns| >= 2
    ensures var table := Table(columns, rows);
            var lines := Rows(FileText(table));
            && |lines| == |rows| + 1
            && forall i | 0 <= i < |lines| :: FieldsOf(lines[i], ',') == Map(ShownText, table[i]) && |FieldsOf(lines[i], ',')| == |columns|
  {
    hide PrintRow, Rows, Join, ShownText, FieldsOf, HeaderCells, RowCells;
    var table := Table(columns, rows);
    var lines := Map(PrintRow, table);
    forall i | 0 <= i < |lines|
      ensures FileLine(lines[i]) && FieldsOf(lines[i], ',') == Map(ShownText, table[i])
    {
      PrintedRowIsTrimmed(table[i]);
      PrintedRowReadsBack(table[i]);
    }
    RowsOfFile(lines);
  }

  // ----- amounts

  predicate AmountText(s: string) {
    forall i | 0 <= i < |s| :: IsDigit(s[i]) || s[i] == '.' || s[i] == '-'
  }

  lemma AmountTextIsPlain(s: string)
    requires AmountText(s)
    ensures OneLine(s) && NoControls(s) && Trimmed(s)
  {
  }

  lemma {:induction false} FormattedIsAmountText(minor: string, currency: string)
    requires Money.IsSignedDigits(minor) && |Money.Magnitude(minor)| <= 18 && Money.Exponent(currency).Some?
    ensures var text := Money.FormatMinorDecimal(minor, currency);
            AmountText(text) && text != "" && (text[0] == '-' <==> Money.IsNegativeText(minor)) && (text[0] != '-' ==> IsDigit(text[0]))
  {
    hide PadStart, Money.Exponent, Money.WholeDigits, Money.FractionDigits;
    var u, exponent := Money.Magnitude(minor), Money.Exponent(currency).value;
    var w, f := Money.WholeDigits(u, exponent), Money.FractionDigits(u, exponent);
    assert AllDigits(w) && AllDigits(f);
  }

  lemma {:induction false} ShownAmount(text: string)
    requires AmountText(text) && text != "" && (text[0] == '-' || IsDigit(text[0]))
    ensures ShownText(Some(text)) == (if text[0] == '-' then "'" else "") + text
  {
    AmountTextIsPlain(text);
    CleanedKept(text);
    FormulaicIff(text);
    hide Cleaned, Formulaic, Trim, AmountText;
    assert text[0] != '-' ==> "" + text == text;
    TrimOfTrimmed(['\''] + text);
    TrimOfTrimmed(text);
  }

  lemma FormulaicIff(text: string)
    requires text != "" && !IsSpace(text[0])
    ensures Formulaic(text) <==> FormulaStart(text[0])
  {
  }

  /** An exported amount reads back exactly when it is not negative; a negative one reads back behind an apostrophe. */
  lemma {:induction false} AmountsReadBack(minor: string, currency: string)
    requires Money.IsSignedDigits(minor) && |Money.Magnitude(minor)| <= 18 && Money.Exponent(currency).Some?
    ensures var text := Money.FormatMinorDecimal(minor, currency);
            ShownText(Some(text)) == (if Money.IsNegativeText(minor) then "'" else "") + text
  {
    hide Money.FormatMinorDecimal, ShownText, AmountText;
    FormattedIsAmountText(minor, currency);
    ShownAmount(Money.FormatMinorDecimal(minor, currency));
  }
}
