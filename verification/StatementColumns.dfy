/** The order of the columns of a pasted statement: when it does not matter, and exactly when it does. */
module StatementColumns {
  import opened Common
  import opened Permutations
  import opened Text
  import opened Csv
  import opened Statement

  /** A cell that no reader changes: trimmed, without quotes, delimiters or line breaks. */
  predicate PlainCell(c: string) {
    Trimmed(c) && OneLine(c) && '"' !in c && ',' !in c && ';' !in c && '\t' !in c
  }

  predicate PlainRow(row: seq<string>) {
    forall i | 0 <= i < |row| :: PlainCell(row[i])
  }

  predicate PlainTable(header: seq<string>, rows: seq<seq<string>>) {
    PlainRow(header) && forall i | 0 <= i < |rows| :: PlainRow(rows[i]) && |rows[i]| == |header|
  }

  /** How a table is written: the delimiter and the line end. */
  datatype Format = Format(delimiter: char, end: string)

  /** A delimiter that trimming a row does not take away. */
  predicate Visible(f: Format) {
    (f.delimiter == ',' || f.delimiter == ';') && LineEnd(f.end)
  }

  function RowText(row: seq<string>, delimiter: char): string {
    Join(row, [delimiter])
  }

  function TableLines(table: seq<seq<string>>, delimiter: char): (r: seq<string>)
    ensures |r| == |table| && forall i | 0 <= i < |r| :: r[i] == RowText(table[i], delimiter)
  {
    Map((row: seq<string>) => RowText(row, delimiter), table)
  }

  /** The paste of a table. */
  function TableText(header: seq<string>, rows: seq<seq<string>>, f: Format): string {
    Join(TableLines([header] + rows, f.delimiter), f.end)
  }

  // ----- reading the paste of a plain table

  predicate IsDelimiter(d: char) {
    d == ',' || d == ';' || d == '\t'
  }

  lemma {:induction false} JoinMisses(row: seq<string>, d: char, c: char)
    requires c != d && forall i | 0 <= i < |row| :: c !in row[i]
    ensures c !in RowText(row, d)
  {
    if |row| >= 2 {
      JoinMisses(row[1..], d, c);
      assert RowText(row, d) == row[0] + ([d] + RowText(row[1..], d));
    }
  }

  predicate IsSpecial(c: char) {
    c == '"' || c == '\r' || c == '\n' || IsDelimiter(c)
  }

  lemma PlainCellMisses(row: seq<string>, c: char)
    requires PlainRow(row) && IsSpecial(c)
    ensures forall i | 0 <= i < |row| :: c !in row[i]
  {
    hide Trimmed;
    forall i | 0 <= i < |row|
      ensures c !in row[i]
    {
      assert PlainCell(row[i]);
    }
  }

  /** A plain row holds nothing special but its own delimiter, and splits into its cells. */
  lemma {:induction false} PlainRowText(row: seq<string>, d: char)
    requires PlainRow(row) && |row| >= 1 && IsDelimiter(d)
    ensures forall c | IsSpecial(c) && c != d :: c !in RowText(row, d)
    ensures |row| >= 2 ==> RowText(row, d) != ""
    ensures Split(RowText(row, d), d) == row
  {
    hide PlainRow;
    forall c | IsSpecial(c) && c != d
      ensures c !in RowText(row, d)
    {
      PlainCellMisses(row, c);
      JoinMisses(row, d, c);
    }
    PlainCellMisses(row, d);
    SplitJoin(row, d);
  }

  lemma PlainRowIsOneLine(row: seq<string>, d: char)
    requires PlainRow(row) && |row| >= 1 && IsDelimiter(d)
    ensures OneLine(RowText(row, d))
  {
    hide PlainRow, RowText;
    PlainRowText(row, d);
    assert IsSpecial('\r') && IsSpecial('\n');
  }

  lemma {:induction false} VisibleRowIsTrimmed(row: seq<string>, d: char)
    requires PlainRow(row) && |row| >= 1 && (d == ',' || d == ';')
    ensures Trimmed(RowText(row, d))
  {
    hide Trimmed;
    if |row| >= 2 {
      VisibleRowIsTrimmed(row[1..], d);
      assert RowText(row, d) == row[0] + ([d] + RowText(row[1..], d));
      TrimmedAround(row[0], d, RowText(row[1..], d));
    }
  }

  /** A plain row reads back as its cells. */
  lemma {:induction false} PlainRowReads(row: seq<string>, d: char)
    requires PlainRow(row) && |row| >= 1 && IsDelimiter(d)
    ensures FieldsOf(RowText(row, d), d) == row
  {
    hide PlainCell, RowText;
    PlainRowText(row, d);
    assert IsSpecial('"');
    PlainRecordIsSplit(RowText(row, d), d);
    CellsAreTrimmed(row);
    MapTrimmed(row);
  }

  lemma CellsAreTrimmed(row: seq<string>)
    requires PlainRow(row)
    ensures forall i | 0 <= i < |row| :: Trimmed(row[i])
  {
    hide Trimmed;
  }

  lemma {:induction false} PlainDelimiter(row: seq<string>, d: char)
    requires PlainRow(row) && |row| >= 2 && IsDelimiter(d)
    ensures DelimiterOf(RowText(row, d)) == d
  {
    PlainRowText(row, d);
    hide PlainRow, RowText;
    assert IsSpecial(',') && IsSpecial(';') && IsSpecial('\t');
    var t := RowText(row, d);
    if d != ',' {
      SplitWithout(t, ',');
    }
    if d != ';' {
      SplitWithout(t, ';');
    }
    if d != '\t' {
      SplitWithout(t, '\t');
    }
  }

  /** Reading the paste of a plain table is importing the table. */
  lemma {:induction false} PasteIsTheTable(header: seq<string>, rows: seq<seq<string>>, f: Format)
    requires PlainTable(header, rows) && |header| >= 2 && Visible(f)
    ensures Parsed(TableText(header, rows, f)) == Import(Map(Lower, header), rows)
  {
    hide Rows, FieldsOf, DelimiterOf, Import, RowText, PlainRow, Join, Lower, Trimmed;
    var d, table := f.delimiter, [header] + rows;
    var lines := TableLines(table, d);
    forall i | 0 <= i < |lines|
      ensures OneLine(lines[i]) && Trimmed(lines[i]) && lines[i] != "" && FieldsOf(lines[i], d) == table[i]
    {
      assert PlainRow(table[i]) && |table[i]| == |header|;
      PlainRowText(table[i], d);
      PlainRowIsOneLine(table[i], d);
      VisibleRowIsTrimmed(table[i], d);
      PlainRowReads(table[i], d);
    }
    RowsOfJoin(lines, f.end);
    PlainDelimiter(header, d);
    assert Records(lines[1..], d) == rows;
  }

  // ----- moving columns

  /** Each of the four names stands over one column at most. */
  predicate NamedOnce(header: seq<string>) {
    forall i, j | 0 <= i < j < |header| && header[i] == header[j] :: header[i] !in ["reference", "kind", "currency", "amount"]
  }

  function Moved(rows: seq<seq<string>>, order: seq<nat>): (r: seq<seq<string>>)
    requires forall i | 0 <= i < |rows| :: Permutation(order, |rows[i]|)
    ensures |r| == |rows| && forall i | 0 <= i < |r| :: r[i] == Shuffled(rows[i], order)
  {
    seq(|rows|, i requires 0 <= i < |rows| => Shuffled(rows[i], order))
  }

  lemma {:induction false} ShuffledMembers<T>(s: seq<T>, order: seq<nat>, x: T)
    requires Permutation(order, |s|)
    ensures x in Shuffled(s, order) <==> x in s
  {
    if i :| 0 <= i < |s| && s[i] == x {
      PermutationCovers(order, |s|, i);
      var k :| 0 <= k < |order| && order[k] == i;
      assert Shuffled(s, order)[k] == x;
    }
  }

  /** A column whose name stands once is found where it was moved to. */
  lemma {:induction false} MovedCell(header: seq<string>, row: seq<string>, order: seq<nat>, name: string)
    requires |row| == |header| && Permutation(order, |header|) && NamedOnce(header)
    requires name in header && name in ["reference", "kind", "currency", "amount"]
    ensures name in Shuffled(header, order)
    ensures Cell(Shuffled(row, order), IndexOf(Shuffled(header, order), name).value) == Cell(row, IndexOf(header, name).value)
  {
    ShuffledMembers(header, order, name);
    var moved := IndexOf(Shuffled(header, order), name).value;
    var i, j := order[moved], IndexOf(header, name).value;
    assert header[i] == header[j];
    assert i == j;
  }

  lemma {:induction false} MovedLine(header: seq<string>, row: seq<string>, order: seq<nat>)
    requires |row| == |header| && Permutation(order, |header|) && NamedOnce(header) && Complete(header)
    ensures Complete(Shuffled(header, order))
    ensures LineOf(Shuffled(row, order), PlacesOf(Shuffled(header, order))) == LineOf(row, PlacesOf(header))
  {
    hide NamedOnce, Permutation, Cell, Upper;
    MovedCell(header, row, order, "reference");
    MovedCell(header, row, order, "kind");
    MovedCell(header, row, order, "currency");
    MovedCell(header, row, order, "amount");
  }

  lemma {:induction false} SameLinesSameImport(a: seq<seq<string>>, b: seq<seq<string>>, width: nat, pa: Places, pb: Places)
    requires |a| == |b| && forall i | 0 <= i < |a| :: |a[i]| <= width && |b[i]| <= width && LineOf(a[i], pa) == LineOf(b[i], pb)
    ensures LinesOf(a, width, pa) == LinesOf(b, width, pb) && ProblemsOf(a, width, pa) == ProblemsOf(b, width, pb)
  {
    hide GoodLine, LineOf;
    if a != [] {
      var n := |a| - 1;
      SameLinesSameImport(a[..n], b[..n], width, pa, pb);
      assert |a[n]| <= width && LineOf(a[n], pa) == LineOf(b[n], pb);
    }
  }

  /** Importing a table whose columns were moved, when no name stands twice. */
  lemma {:induction false} MovedImport(header: seq<string>, rows: seq<seq<string>>, order: seq<nat>)
    requires Permutation(order, |header|) && forall i | 0 <= i < |rows| :: |rows[i]| == |header|
    requires Complete(header) ==> NamedOnce(header)
    ensures Import(Shuffled(header, order), Moved(rows, order)) == Import(header, rows)
  {
    hide Permutation, LineOf, LinesOf, ProblemsOf, PlacesOf, NamedOnce;
    ShuffledMembers(header, order, "reference");
    ShuffledMembers(header, order, "kind");
    ShuffledMembers(header, order, "currency");
    ShuffledMembers(header, order, "amount");
    if Complete(header) {
      var moved := Shuffled(header, order);
      forall i | 0 <= i < |rows|
        ensures LineOf(Shuffled(rows[i], order), PlacesOf(moved)) == LineOf(rows[i], PlacesOf(header))
      {
        MovedLine(header, rows[i], order);
      }
      SameLinesSameImport(Moved(rows, order), rows, |header|, PlacesOf(moved), PlacesOf(header));
    }
  }

  lemma {:induction false} ShortOrder<T>(s: seq<T>, order: seq<nat>)
    requires Permutation(order, |s|) && |s| <= 1
    ensures Shuffled(s, order) == s
  {
  }

  lemma {:induction false} ShortTable(header: seq<string>, rows: seq<seq<string>>, order: seq<nat>)
    requires Permutation(order, |header|) && |header| <= 1 && forall i | 0 <= i < |rows| :: |rows[i]| == |header|
    ensures Shuffled(header, order) == header && Moved(rows, order) == rows
  {
    ShortOrder(header, order);
    hide Permutation, Shuffled;
    forall i | 0 <= i < |rows|
      ensures Shuffled(rows[i], order) == rows[i]
    {
      ShortOrder(rows[i], order);
    }
  }

  lemma {:induction false} ShuffledPlain(row: seq<string>, order: seq<nat>)
    requires PlainRow(row) && Permutation(order, |row|)
    ensures PlainRow(Shuffled(row, order))
  {
    hide PlainCell;
  }

  /** The names of the columns as the import compares them. */
  function Names(header: seq<string>): seq<string> {
    Map(Lower, header)
  }

  /** The order of the columns cannot matter to what is read: a name is missing, or each of the four stands once. */
  predicate Unambiguous(header: seq<string>) {
    Complete(Names(header)) ==> NamedOnce(Names(header))
  }

  /** Moving the columns of a plain paste consistently leaves its lines and problems as they are. */
  lemma {:induction false} ColumnsMayMove(header: seq<string>, rows: seq<seq<string>>, order: seq<nat>, f: Format)
    requires PlainTable(header, rows) && Visible(f) && Permutation(order, |header|) && Unambiguous(header)
    ensures Parsed(TableText(Shuffled(header, order), Moved(rows, order), f)) == Parsed(TableText(header, rows, f))
  {
    if |header| <= 1 {
      ShortTable(header, rows, order);
    } else {
      LongTableMoves(header, rows, order, f);
    }
  }

  lemma {:induction false} LongTableMoves(header: seq<string>, rows: seq<seq<string>>, order: seq<nat>, f: Format)
    requires |header| >= 2 && PlainTable(header, rows) && Visible(f) && Permutation(order, |header|) && Unambiguous(header)
    ensures Parsed(TableText(Shuffled(header, order), Moved(rows, order), f)) == Parsed(TableText(header, rows, f))
  {
    var moved, movedRows := Shuffled(header, order), Moved(rows, order);
    MovedPlain(header, rows, order);
    TableWidths(header, rows);
    hide Permutation, PlainTable, Parsed, Import, TableText, Complete, NamedOnce, Lower, Visible, Shuffled, Moved, Names;
    PasteIsTheTable(header, rows, f);
    PasteIsTheTable(moved, movedRows, f);
    NamesMove(header, order);
    assert Names(header) == Map(Lower, header) && Names(moved) == Map(Lower, moved) by { NamesAreLower(header); NamesAreLower(moved); }
    MovedImport(Names(header), rows, order);
  }

  lemma NamesAreLower(header: seq<string>)
    ensures Names(header) == Map(Lower, header)
  {
  }

  lemma TableWidths(header: seq<string>, rows: seq<seq<string>>)
    requires PlainTable(header, rows)
    ensures forall i | 0 <= i < |rows| :: |rows[i]| == |header|
  {
  }

  lemma NamesMove(header: seq<string>, order: seq<nat>)
    requires Permutation(order, |header|)
    ensures Names(Shuffled(header, order)) == Shuffled(Names(header), order)
  {
    hide Lower;
  }

  lemma {:induction false} MovedPlain(header: seq<string>, rows: seq<seq<string>>, order: seq<nat>)
    requires PlainTable(header, rows) && Permutation(order, |header|)
    ensures PlainTable(Shuffled(header, order), Moved(rows, order))
  {
    hide Permutation, PlainRow;
    ShuffledPlain(header, order);
    forall i | 0 <= i < |rows|
      ensures PlainRow(Moved(rows, order)[i])
    {
      ShuffledPlain(rows[i], order);
    }
  }

  // ----- the exception: a name that stands twice

  function Sample(name: string): string {
    if name == "reference" then "R"
    else if name == "kind" then "CHARGE"
    else if name == "currency" then "USD"
    else if name == "amount" then "1"
    else ""
  }

  /** A record that is good where each name stands first, and empty in column `j`. */
  function SampleRow(names: seq<string>, j: nat): (r: seq<string>)
    ensures |r| == |names| && forall k | 0 <= k < |r| :: r[k] == if k == j then "" else Sample(names[k])
  {
    seq(|names|, k requires 0 <= k < |names| => if k == j then "" else Sample(names[k]))
  }

  function Swap(n: nat, i: nat, j: nat): (r: seq<nat>)
    requires i < j < n
    ensures Permutation(r, n)
    ensures forall k | 0 <= k < n :: r[k] == if k == i then j else if k == j then i else k
  {
    seq(n, k requires 0 <= k < n => if k == i then j else if k == j then i else k)
  }

  lemma SamplesAreGood()
    ensures GoodLine(Line("R", Upper("CHARGE"), Upper("USD"), "1"))
  {
    hide Upper, IsAmount, IsCurrency;
    ChargeIsKind();
    UsdIsCurrency();
    OneIsAmount();
  }

  lemma UpperKept(s: string)
    requires UpperLetters(s)
    ensures Upper(s) == s
  {
  }

  lemma ChargeIsKind()
    ensures Upper("CHARGE") in KINDS
  {
    var kind := "CHARGE";
    UpperKept(kind);
    hide Upper;
    assert KINDS[0] == kind;
  }

  lemma UsdIsCurrency()
    ensures IsCurrency(Upper("USD"))
  {
    var code := "USD";
    UpperKept(code);
  }

  lemma OneIsAmount()
    ensures IsAmount("1")
  {
    SplitWithout("1", '.');
  }

  lemma EmptyIsBad(l: Line)
    requires l.reference == "" || l.kind == "" || l.currency == "" || l.amount == ""
    ensures !GoodLine(l)
  {
    assert Split("", '.') == [""];
    assert Split("", '.')[0] == "";
  }

  /** The first column of a name cannot be a later one. */
  lemma FirstIsNotLater(names: seq<string>, name: string, i: nat, j: nat)
    requires i < j < |names| && names[i] == names[j] && name in names
    ensures IndexOf(names, name).value != j
  {
  }

  lemma {:induction false} SampleIsAccepted(names: seq<string>, i: nat, j: nat)
    requires Complete(names) && i < j < |names| && names[i] == names[j]
    ensures Accepted(SampleRow(names, j), |names|, PlacesOf(names))
  {
    hide GoodLine, Upper;
    FirstIsNotLater(names, "reference", i, j);
    FirstIsNotLater(names, "kind", i, j);
    FirstIsNotLater(names, "currency", i, j);
    FirstIsNotLater(names, "amount", i, j);
    SamplesAreGood();
  }

  lemma {:induction false} SwappedNames(names: seq<string>, i: nat, j: nat)
    requires i < j < |names| && names[i] == names[j]
    ensures Shuffled(names, Swap(|names|, i, j)) == names
  {
    hide Permutation;
  }

  lemma {:induction false} SwappedIsRefused(names: seq<string>, i: nat, j: nat)
    requires Complete(names) && i < j < |names| && names[i] in ["reference", "kind", "currency", "amount"]
    requires IndexOf(names, names[i]) == Some(i)
    ensures !Accepted(Shuffled(SampleRow(names, j), Swap(|names|, i, j)), |names|, PlacesOf(names))
  {
    hide Permutation, GoodLine, Upper, Sample, Complete;
    var swapped := Shuffled(SampleRow(names, j), Swap(|names|, i, j));
    assert Cell(swapped, i) == "";
    UpperOfNothing();
    EmptyIsBad(LineOf(swapped, PlacesOf(names)));
  }

  lemma UpperOfNothing()
    ensures Upper("") == ""
  {
  }

  lemma {:induction false} FirstOfTwo(names: seq<string>) returns (i: nat, j: nat)
    requires !NamedOnce(names)
    ensures i < j < |names| && names[i] == names[j] && names[i] in ["reference", "kind", "currency", "amount"]
    ensures IndexOf(names, names[i]) == Some(i)
  {
    var a, b :| 0 <= a < b < |names| && names[a] == names[b] && names[a] in ["reference", "kind", "currency", "amount"];
    i, j := IndexOf(names, names[a]).value, b;
  }

  lemma OneRecord(header: seq<string>, row: seq<string>)
    requires Complete(header)
    ensures Import(header, [row]).lines == if Accepted(row, |header|, PlacesOf(header)) then [LineOf(row, PlacesOf(header))] else []
  {
    hide Accepted, LineOf, PlacesOf, Complete, ReasonOf;
    var records := [row];
    assert records[..0] == [] && records[0] == row && |records| == 1;
    assert LinesOf(records[..0], |header|, PlacesOf(header)) == [];
  }

  lemma {:induction false} SampleRowIsPlain(names: seq<string>, j: nat)
    ensures PlainRow(SampleRow(names, j))
  {
  }

  /** With a name standing twice, one record and one swap of its columns change what is imported. */
  lemma {:induction false} SwapChangesTheImport(names: seq<string>) returns (row: seq<string>, order: seq<nat>)
    requires Complete(names) && !NamedOnce(names)
    ensures |row| == |names| && PlainRow(row) && Permutation(order, |names|)
    ensures Import(Shuffled(names, order), [Shuffled(row, order)]) != Import(names, [row])
  {
    hide Accepted, LineOf, PlacesOf, Permutation, NamedOnce, Import, PlainRow, Complete, Sample;
    var i, j := FirstOfTwo(names);
    row, order := SampleRow(names, j), Swap(|names|, i, j);
    SampleRowIsPlain(names, j);
    SampleIsAccepted(names, i, j);
    SwappedNames(names, i, j);
    SwappedIsRefused(names, i, j);
    OneRecord(names, row);
    OneRecord(names, Shuffled(row, order));
  }

  ghost predicate OrderNeverMatters(header: seq<string>, f: Format)
    requires PlainRow(header)
  {
    forall rows, order | PlainTable(header, rows) && Permutation(order, |header|) ::
      Parsed(TableText(Shuffled(header, order), Moved(rows, order), f)) == Parsed(TableText(header, rows, f))
  }

  /** The order of the columns never matters exactly when the header does not name a wanted column twice, or lacks one. */
  lemma {:induction false} OrderNeverMattersIff(header: seq<string>, f: Format)
    requires PlainRow(header) && Visible(f)
    ensures OrderNeverMatters(header, f) <==> Unambiguous(header)
  {
    hide Parsed, TableText, Permutation, PlainRow, Import, Complete, NamedOnce, Lower;
    if Unambiguous(header) {
      forall rows, order | PlainTable(header, rows) && Permutation(order, |header|)
        ensures Parsed(TableText(Shuffled(header, order), Moved(rows, order), f)) == Parsed(TableText(header, rows, f))
      {
        ColumnsMayMove(header, rows, order, f);
      }
    } else {
      var row, order := SwapChangesTheImport(Names(header));
      TwoColumns(Names(header));
      ShuffledPlain(header, order);
      ShuffledPlain(row, order);
      assert [row][0] == row && |row| == |header|;
      assert PlainTable(header, [row]);
      assert Moved([row], order) == [Shuffled(row, order)];
      PasteIsTheTable(header, [row], f);
      PasteIsTheTable(Shuffled(header, order), [Shuffled(row, order)], f);
      NamesMove(header, order);
    }
  }

  lemma TwoColumns(names: seq<string>)
    requires Complete(names)
    ensures |names| >= 2
  {
    var i, j := IndexOf(names, "reference").value, IndexOf(names, "kind").value;
    assert names[i] != names[j];
  }
}
