/** The CSV printer of the booking export and the record reader of the statement import (RFC 4180 section 2). */
module Csv {
  import opened Common
  import opened Text

  // ----- the printer

  /** Every line break becomes one space. */
  function BreaksToSpaces(s: string): string {
    if s == "" then ""
    else if |s| >= 2 && s[0] == '\r' && s[1] == '\n' then [' '] + BreaksToSpaces(s[2..])
    else if s[0] == '\r' || s[0] == '\n' then [' '] + BreaksToSpaces(s[1..])
    else [s[0]] + BreaksToSpaces(s[1..])
  }

  predicate IsControl(c: char) {
    c <= '\U{0008}' || c == '\U{000B}' || c == '\U{000C}' || '\U{000E}' <= c <= '\U{001F}'
  }

  function WithoutControls(s: string): string {
    Filter((c: char) => !IsControl(c), s)
  }

  predicate FormulaStart(c: char) {
    c == '=' || c == '+' || c == '-' || c == '@'
  }

  /** A spreadsheet would run the text: `^\s*[=+\-@]|^\t`. */
  predicate Formulaic(s: string) {
    || (TrimStart(s) != "" && FormulaStart(TrimStart(s)[0]))
    || (s != "" && s[0] == '\t')
  }

  function Cleaned(s: string): string {
    WithoutControls(BreaksToSpaces(s))
  }

  /** What the cell shows: the cleaned text, after an apostrophe when it would run. */
  function SafeText(s: string): string {
    if Formulaic(Cleaned(s)) then ['\''] + Cleaned(s) else Cleaned(s)
  }

  predicate NeedsQuotes(s: string) {
    '"' in s || ',' in s || ';' in s || s != Trim(s)
  }

  function Doubled(s: string): string {
    if s == "" then "" else (if s[0] == '"' then "\"\"" else [s[0]]) + Doubled(s[1..])
  }

  /** `csvCell`; `None` is a null or missing value. */
  function CsvCell(value: Option<string>): string {
    if value.None? then ""
    else
      var text := SafeText(value.value);
      if NeedsQuotes(text) then "\"" + Doubled(text) + "\"" else text
  }

  /** What a reader of the cell gets. */
  function ShownText(value: Option<string>): string {
    if value.None? then "" else Trim(SafeText(value.value))
  }

  // ----- the reader

  /** The fields of the rest of a record, with the field being read so far and whether it is inside quotes. */
  function FieldsFrom(row: string, current: string, quoted: bool, delimiter: char): (r: seq<string>)
    ensures |r| >= 1
  {
    if row == "" then [Trim(current)]
    else if quoted then
      if row[0] == '"' && |row| >= 2 && row[1] == '"' then FieldsFrom(row[2..], current + "\"", true, delimiter)
      else if row[0] == '"' then FieldsFrom(row[1..], current, false, delimiter)
      else FieldsFrom(row[1..], current + [row[0]], true, delimiter)
    else if row[0] == '"' then FieldsFrom(row[1..], current, true, delimiter)
    else if row[0] == delimiter then [Trim(current)] + FieldsFrom(row[1..], "", false, delimiter)
    else FieldsFrom(row[1..], current + [row[0]], false, delimiter)
  }

  function FieldsOf(row: string, delimiter: char): (r: seq<string>)
    ensures |r| >= 1
  {
    FieldsFrom(row, "", false, delimiter)
  }

  /** `fields`: the character loop. */
  method Fields(row: string, delimiter: char) returns (out: seq<string>)
    ensures out == FieldsOf(row, delimiter)
  {
    hide Trim;
    out := [];
    var current, quoted := "", false;
    var i := 0;
    while i < |row|
      invariant 0 <= i <= |row|
      invariant out + FieldsFrom(row[i..], current, quoted, delimiter) == FieldsOf(row, delimiter)
    {
      var ch := row[i];
      assert row[i..][1..] == row[i + 1..];
      if quoted {
        if ch == '"' && i + 1 < |row| && row[i + 1] == '"' {
          assert row[i..][2..] == row[i + 2..];
          current := current + "\"";
          i := i + 1;
        } else if ch == '"' {
          quoted := false;
        } else {
          current := current + [ch];
        }
      } else if ch == '"' {
        quoted := true;
      } else if ch == delimiter {
        out := out + [Trim(current)];
        current := "";
      } else {
        current := current + [ch];
      }
      i := i + 1;
    }
    out := out + [Trim(current)];
  }

  // ----- printed cells read back

  lemma {:induction false} BreaksGone(s: string)
    ensures '\r' !in BreaksToSpaces(s) && '\n' !in BreaksToSpaces(s)
  {
    if s == "" {
    } else if |s| >= 2 && s[0] == '\r' && s[1] == '\n' {
      BreaksGone(s[2..]);
    } else {
      BreaksGone(s[1..]);
    }
  }

  lemma {:induction false} SafeTextHasNoBreak(s: string)
    ensures '\r' !in SafeText(s) && '\n' !in SafeText(s)
  {
    BreaksGone(s);
    FilterMembers((c: char) => !IsControl(c), BreaksToSpaces(s), '\r');
    FilterMembers((c: char) => !IsControl(c), BreaksToSpaces(s), '\n');
  }

  lemma {:induction false} DoubledMembers(s: string, c: char)
    ensures c in Doubled(s) <==> c in s
  {
    if s != "" {
      DoubledMembers(s[1..], c);
    }
  }

  /** No printed cell holds a line break, whatever the value. */
  lemma {:induction false} CellIsOneLine(value: Option<string>)
    ensures '\r' !in CsvCell(value) && '\n' !in CsvCell(value)
  {
    if value.Some? {
      SafeTextHasNoBreak(value.value);
      hide SafeText, Doubled, Trim;
      DoubledMembers(SafeText(value.value), '\r');
      DoubledMembers(SafeText(value.value), '\n');
    }
  }

  /** A cell that a spreadsheet reads never starts a formula, with or without its leading spaces. */
  lemma {:induction false} CellNeverRuns(value: Option<string>)
    ensures !Formulaic(ShownText(value))
    ensures value.Some? ==> !Formulaic(SafeText(value.value))
  {
    if value.Some? {
      SafeTextNeverRuns(value.value);
      TrimmedNeverRuns(SafeText(value.value));
    }
  }

  lemma SafeTextNeverRuns(s: string)
    ensures !Formulaic(SafeText(s))
  {
    hide Cleaned;
  }

  lemma {:induction false} TrimmedNeverRuns(s: string)
    requires !Formulaic(s)
    ensures !Formulaic(Trim(s))
  {
    var start := TrimStart(s);
    TrimStartIsSuffix(s);
    TrimEndIsPrefix(start);
    var k :| 0 <= k <= |start| && TrimEnd(start) == start[..k];
    if Trim(s) != "" {
      assert Trim(s)[0] == start[0];
      assert TrimStart(Trim(s)) == Trim(s);
    }
  }

  lemma {:induction false} QuotedReads(text: string, rest: string, current: string, delimiter: char)
    requires rest == "" || rest[0] != '"'
    ensures FieldsFrom(Doubled(text) + ("\"" + rest), current, true, delimiter) == FieldsFrom(rest, current + text, false, delimiter)
  {
    hide Trim;
    var row := Doubled(text) + ("\"" + rest);
    if text == "" {
      assert row == "\"" + rest;
      assert row[1..] == rest;
      assert current + text == current;
    } else {
      var after := Doubled(text[1..]) + ("\"" + rest);
      QuotedReads(text[1..], rest, current + [text[0]], delimiter);
      assert current + [text[0]] + text[1..] == current + text;
      if text[0] == '"' {
        assert row == "\"\"" + after;
        assert row[2..] == after;
        assert current + "\"" == current + [text[0]];
      } else {
        assert row == [text[0]] + after;
        assert row[1..] == after;
      }
    }
  }

  lemma {:induction false} UnquotedReads(text: string, rest: string, current: string, delimiter: char)
    requires '"' !in text && delimiter !in text
    ensures FieldsFrom(text + rest, current, false, delimiter) == FieldsFrom(rest, current + text, false, delimiter)
  {
    hide Trim;
    if text == "" {
      assert text + rest == rest && current + text == current;
    } else {
      assert (text + rest)[1..] == text[1..] + rest;
      UnquotedReads(text[1..], rest, current + [text[0]], delimiter);
      assert current + [text[0]] + text[1..] == current + text;
    }
  }

  lemma {:induction false} QuotedCellReads(text: string, rest: string, delimiter: char)
    requires rest == "" || rest[0] != '"'
    ensures FieldsFrom("\"" + Doubled(text) + "\"" + rest, "", false, delimiter) == FieldsFrom(rest, text, false, delimiter)
  {
    hide Trim, Doubled;
    var row := "\"" + Doubled(text) + "\"" + rest;
    assert row[0] == '"' && row[1..] == Doubled(text) + ("\"" + rest);
    QuotedReads(text, rest, "", delimiter);
    assert "" + text == text;
  }

  /** One printed cell, in front of a comma or the end of the record. */
  lemma {:induction false} CellReads(value: Option<string>, rest: string)
    requires rest == "" || rest[0] == ','
    ensures FieldsFrom(CsvCell(value) + rest, "", false, ',') == FieldsFrom(rest, if value.None? then "" else SafeText(value.value), false, ',')
  {
    hide Trim, SafeText, Doubled;
    if value.None? {
      assert "" + rest == rest;
    } else {
      var text := SafeText(value.value);
      if NeedsQuotes(text) {
        QuotedCellReads(text, rest, ',');
      } else {
        UnquotedReads(text, rest, "", ',');
        assert "" + text == text;
      }
    }
  }

  function PrintRow(cells: seq<Option<string>>): string {
    Join(Map(CsvCell, cells), ",")
  }

  lemma PrintRowStep(cells: seq<Option<string>>)
    requires |cells| >= 2
    ensures PrintRow(cells) == CsvCell(cells[0]) + ("," + PrintRow(cells[1..]))
  {
    assert Map(CsvCell, cells)[1..] == Map(CsvCell, cells[1..]);
  }

  /** Reading a printed row gives the shown text of every cell, in order. */
  lemma {:induction false} PrintedRowReadsBack(cells: seq<Option<string>>)
    requires cells != []
    ensures FieldsOf(PrintRow(cells), ',') == Map(ShownText, cells)
  {
    hide Trim, SafeText, CsvCell;
    TrimNothing();
    if |cells| == 1 {
      assert Map(CsvCell, cells) == [CsvCell(cells[0])];
      CellReads(cells[0], "");
      assert CsvCell(cells[0]) + "" == CsvCell(cells[0]);
    } else {
      PrintRowStep(cells);
      PrintedRowReadsBack(cells[1..]);
      CellReads(cells[0], "," + PrintRow(cells[1..]));
      assert ("," + PrintRow(cells[1..]))[1..] == PrintRow(cells[1..]);
      assert cells == [cells[0]] + cells[1..];
    }
  }

  /** A record without quotes is just split at the delimiter and trimmed. */
  lemma {:induction false} WithoutQuotesIsSplit(row: string, current: string, delimiter: char)
    requires '"' !in row && delimiter !in current && delimiter != '"'
    ensures FieldsFrom(row, current, false, delimiter) == Map(Trim, Split(current + row, delimiter))
  {
    hide Trim;
    if row == "" {
      SplitWithout(current, delimiter);
      assert current + row == current;
    } else if row[0] == delimiter {
      WithoutQuotesIsSplit(row[1..], "", delimiter);
      SplitAfter(current, row[1..], delimiter);
      assert current + row == current + [delimiter] + row[1..];
      assert "" + row[1..] == row[1..];
      MapAppend(Trim, [current], Split(row[1..], delimiter));
    } else {
      WithoutQuotesIsSplit(row[1..], current + [row[0]], delimiter);
      assert current + [row[0]] + row[1..] == current + row;
    }
  }

  lemma {:induction false} PlainRecordIsSplit(row: string, delimiter: char)
    requires '"' !in row && delimiter != '"'
    ensures FieldsOf(row, delimiter) == Map(Trim, Split(row, delimiter))
  {
    WithoutQuotesIsSplit(row, "", delimiter);
    assert "" + row == row;
  }

  // ----- lines of a text

  /** `split(/\r?\n/)`. */
  function SplitLines(s: string): (r: seq<string>)
    ensures |r| >= 1
  {
    if s == "" then [""]
    else if s[0] == '\n' then [""] + SplitLines(s[1..])
    else if |s| >= 2 && s[0] == '\r' && s[1] == '\n' then [""] + SplitLines(s[2..])
    else [[s[0]] + SplitLines(s[1..])[0]] + SplitLines(s[1..])[1..]
  }

  /** The rows that the import reads: trimmed lines that are not blank. */
  function Rows(text: string): seq<string> {
    Filter((r: string) => r != "", Map(Trim, SplitLines(text)))
  }

  predicate LineEnd(s: string) {
    s == "\n" || s == "\r\n"
  }

  lemma {:induction false} SplitLinesAfter(line: string, end: string, rest: string)
    requires OneLine(line) && LineEnd(end)
    ensures SplitLines(line + end + rest) == [line] + SplitLines(rest)
  {
    var s := line + end + rest;
    if line == "" {
      assert s[|end|..] == rest;
    } else {
      assert s[1..] == line[1..] + end + rest;
      SplitLinesAfter(line[1..], end, rest);
      assert [line[0]] + line[1..] == line;
    }
  }

  lemma {:induction false} SplitLinesWithout(line: string)
    requires OneLine(line)
    ensures SplitLines(line) == [line]
  {
    if line != "" {
      SplitLinesWithout(line[1..]);
      assert [line[0]] + line[1..] == line;
    }
  }

  lemma {:induction false} SplitLinesOfJoin(lines: seq<string>, end: string)
    requires LineEnd(end) && lines != [] && forall i | 0 <= i < |lines| :: OneLine(lines[i])
    ensures SplitLines(Join(lines, end)) == lines
  {
    if |lines| == 1 {
      SplitLinesWithout(lines[0]);
    } else {
      SplitLinesOfJoin(lines[1..], end);
      SplitLinesAfter(lines[0], end, Join(lines[1..], end));
      assert lines == [lines[0]] + lines[1..];
    }
  }

  lemma {:induction false} RowsOfJoin(lines: seq<string>, end: string)
    requires LineEnd(end) && forall i | 0 <= i < |lines| :: OneLine(lines[i]) && Trimmed(lines[i]) && lines[i] != ""
    ensures Rows(Join(lines, end)) == lines
  {
    hide Trim;
    TrimNothing();
    if lines == [] {
      assert Map(Trim, [""]) == [""];
    } else {
      SplitLinesOfJoin(lines, end);
      MapTrimmed(lines);
      FilterAll((r: string) => r != "", lines);
    }
  }

  // ----- what the cleaning keeps

  predicate NoControls(s: string) {
    forall i | 0 <= i < |s| :: !IsControl(s[i])
  }

  lemma {:induction false} BreaksKept(s: string)
    requires OneLine(s)
    ensures BreaksToSpaces(s) == s
  {
    if s != "" {
      BreaksKept(s[1..]);
      assert [s[0]] + s[1..] == s;
    }
  }

  lemma {:induction false} CleanedKept(s: string)
    requires OneLine(s) && NoControls(s)
    ensures Cleaned(s) == s
  {
    BreaksKept(s);
    FilterAll((c: char) => !IsControl(c), s);
  }

  lemma {:induction false} CleanedIsClean(s: string)
    ensures NoControls(Cleaned(s))
  {
    forall i | 0 <= i < |Cleaned(s)|
      ensures !IsControl(Cleaned(s)[i])
    {
      FilterMembers((c: char) => !IsControl(c), BreaksToSpaces(s), Cleaned(s)[i]);
    }
  }

  /** A text is exported as it is exactly when it has no line break, no control character, and would not run as a formula. */
  lemma {:induction false} KeptVerbatimIff(s: string)
    ensures SafeText(s) == s <==> OneLine(s) && NoControls(s) && !Formulaic(s)
  {
    if SafeText(s) == s {
      SafeTextHasNoBreak(s);
      SafeTextNeverRuns(s);
      SafeTextIsClean(s);
    }
    if OneLine(s) && NoControls(s) {
      CleanedKept(s);
    }
  }

  lemma SafeTextIsClean(s: string)
    ensures NoControls(SafeText(s))
  {
    hide Cleaned, Formulaic;
    CleanedIsClean(s);
  }
}
