/** The supplier statement import: pasted text with a header row, read into lines and problems. */
module Statement {
  import opened Common
  import opened Text
  import opened Csv

  datatype Line = Line(reference: string, kind: string, currency: string, amount: string)

  datatype Reason = TooManyColumns | NoReference | BadKind | BadCurrency | BadAmount

  datatype Problem = HeaderIncomplete | Row(number: nat, reason: Reason) | TooManyLines

  datatype ParseResult = ParseResult(lines: seq<Line>, errors: seq<Problem>)

  const KINDS: seq<string> := ["CHARGE", "CREDIT", "SURCHARGE"]
  const MAX_LINES := 5000

  /** `indexOf`: the first place of a name. */
  function IndexOf(names: seq<string>, name: string): (r: Option<nat>)
    ensures r.Some? ==> r.value < |names| && names[r.value] == name && forall k | 0 <= k < r.value :: names[k] != name
    ensures r.None? <==> name !in names
  {
    if names == [] then None
    else if names[0] == name then Some(0)
    else
      var rest := IndexOf(names[1..], name);
      if rest.Some? then Some(rest.value + 1) else None
  }

  /** Where the four named columns are. */
  datatype Places = Places(reference: nat, kind: nat, currency: nat, amount: nat)

  predicate Complete(header: seq<string>) {
    "reference" in header && "kind" in header && "currency" in header && "amount" in header
  }

  function PlacesOf(header: seq<string>): Places
    requires Complete(header)
  {
    Places(IndexOf(header, "reference").value, IndexOf(header, "kind").value,
           IndexOf(header, "currency").value, IndexOf(header, "amount").value)
  }

  /** A record shorter than the header reads as empty in the missing columns. */
  function Cell(cells: seq<string>, place: nat): string {
    if place < |cells| then cells[place] else ""
  }

  /** `^\d+(?:\.\d+)?$`. */
  predicate IsAmount(s: string) {
    var parts := Split(s, '.');
    |parts| <= 2 && forall i | 0 <= i < |parts| :: parts[i] != "" && AllDigits(parts[i])
  }

  predicate IsCurrency(s: string) {
    |s| == 3 && UpperLetters(s)
  }

  /** The line that a record stands for. */
  function LineOf(cells: seq<string>, places: Places): Line {
    Line(Cell(cells, places.reference), Upper(Cell(cells, places.kind)), Upper(Cell(cells, places.currency)), Cell(cells, places.amount))
  }

  predicate GoodLine(l: Line) {
    l.reference != "" && l.kind in KINDS && IsCurrency(l.currency) && IsAmount(l.amount)
  }

  /** The record becomes a line. */
  predicate Accepted(cells: seq<string>, width: nat, places: Places) {
    |cells| <= width && GoodLine(LineOf(cells, places))
  }

  /** Why a record does not become a line: the first thing wrong with it. */
  function ReasonOf(cells: seq<string>, width: nat, places: Places): Reason
    requires !Accepted(cells, width, places)
  {
    var l := LineOf(cells, places);
    if |cells| > width then TooManyColumns
    else if l.reference == "" then NoReference
    else if l.kind !in KINDS then BadKind
    else if !IsCurrency(l.currency) then BadCurrency
    else BadAmount
  }

  /** The lines of the accepted records, in order. */
  function LinesOf(records: seq<seq<string>>, width: nat, places: Places): seq<Line> {
    if records == [] then []
    else
      var n := |records| - 1;
      LinesOf(records[..n], width, places) + if Accepted(records[n], width, places) then [LineOf(records[n], places)] else []
  }

  /** The problems of the other records, in order; the first record is row 2 of the paste. */
  function ProblemsOf(records: seq<seq<string>>, width: nat, places: Places): seq<Problem> {
    if records == [] then []
    else
      var n := |records| - 1;
      ProblemsOf(records[..n], width, places)
      + if Accepted(records[n], width, places) then [] else [Row(n + 2, ReasonOf(records[n], width, places))]
  }

  function Import(header: seq<string>, records: seq<seq<string>>): ParseResult {
    if !Complete(header) then ParseResult([], [HeaderIncomplete])
    else
      var places := PlacesOf(header);
      var lines := LinesOf(records, |header|, places);
      ParseResult(lines, ProblemsOf(records, |header|, places) + if |lines| > MAX_LINES then [TooManyLines] else [])
  }

  /** The delimiter that splits the first row into the most parts; the earlier one on a tie. */
  function DelimiterOf(row: string): char {
    var best := if |Split(row, ';')| > |Split(row, ',')| then ';' else ',';
    if |Split(row, '\t')| > |Split(row, best)| then '\t' else best
  }

  function HeaderOf(row: string, delimiter: char): seq<string> {
    Map(Lower, FieldsOf(row, delimiter))
  }

  function Records(rows: seq<string>, delimiter: char): (r: seq<seq<string>>)
    ensures |r| == |rows|
  {
    Map((row: string) => FieldsOf(row, delimiter), rows)
  }

  function Parsed(text: string): ParseResult {
    var rows := Rows(text);
    if rows == [] then ParseResult([], [])
    else
      var delimiter := DelimiterOf(rows[0]);
      Import(HeaderOf(rows[0], delimiter), Records(rows[1..], delimiter))
  }

  /** `parseStatementCsv`. */
  method ParseStatementCsv(text: string) returns (result: ParseResult)
    ensures result == Parsed(text)
  {
    hide Rows, FieldsOf, DelimiterOf, LinesOf, ProblemsOf, Complete, PlacesOf;
    var rows := Rows(text);
    if |rows| == 0 {
      return ParseResult([], []);
    }
    var delimiter := DelimiterOf(rows[0]);
    var first := Fields(rows[0], delimiter);
    var header := Map(Lower, first);
    if !Complete(header) {
      return ParseResult([], [HeaderIncomplete]);
    }
    var lines, errors := ReadRows(rows[1..], delimiter, |header|, PlacesOf(header));
    if |lines| > MAX_LINES {
      errors := errors + [TooManyLines];
    }
    result := ParseResult(lines, errors);
  }

  /** The data rows, one after the other. */
  method ReadRows(rows: seq<string>, delimiter: char, width: nat, places: Places) returns (lines: seq<Line>, errors: seq<Problem>)
    ensures lines == LinesOf(Records(rows, delimiter), width, places)
    ensures errors == ProblemsOf(Records(rows, delimiter), width, places)
  {
    hide Accepted, ReasonOf, LineOf, FieldsOf;
    lines, errors := [], [];
    ghost var records := Records(rows, delimiter);
    for n := 0 to |rows|
      invariant lines == LinesOf(records[..n], width, places)
      invariant errors == ProblemsOf(records[..n], width, places)
    {
      var cells := Fields(rows[n], delimiter);
      assert records[..n + 1][..n] == records[..n] && records[..n + 1][n] == cells;
      var line, reason := ReadRecord(cells, width, places);
      if reason.Some? {
        errors := errors + [Row(n + 2, reason.value)];
      } else {
        lines := lines + [line];
      }
    }
    assert records[..|rows|] == records;
  }

  /** One record: the checks in their order. */
  method ReadRecord(cells: seq<string>, width: nat, places: Places) returns (line: Line, reason: Option<Reason>)
    ensures line == LineOf(cells, places)
    ensures reason.None? <==> Accepted(cells, width, places)
    ensures reason.Some? ==> reason.value == ReasonOf(cells, width, places)
  {
    hide IsAmount, IsCurrency, Upper;
    line := LineOf(cells, places);
    if |cells| > width {
      return line, Some(TooManyColumns);
    }
    reason :=
      if line.reference == "" then Some(NoReference)
      else if line.kind !in KINDS then Some(BadKind)
      else if !IsCurrency(line.currency) then Some(BadCurrency)
      else if !IsAmount(line.amount) then Some(BadAmount)
      else None;
  }

  // ----- no row is lost

  /** The problems name exactly the refused rows, each once, in order. */
  lemma {:induction false} ProblemsNameRefusedRows(records: seq<seq<string>>, width: nat, places: Places)
    ensures |LinesOf(records, width, places)| + |ProblemsOf(records, width, places)| == |records|
    ensures forall p | p in ProblemsOf(records, width, places) ::
              p.Row? && 2 <= p.number < |records| + 2
              && !Accepted(records[p.number - 2], width, places) && p.reason == ReasonOf(records[p.number - 2], width, places)
    ensures forall i, j | 0 <= i < j < |ProblemsOf(records, width, places)| ::
              ProblemsOf(records, width, places)[i].Row? && ProblemsOf(records, width, places)[j].Row?
              && ProblemsOf(records, width, places)[i].number < ProblemsOf(records, width, places)[j].number
  {
    hide Accepted, ReasonOf, LineOf;
    if records != [] {
      var n := |records| - 1;
      var front := records[..n];
      ProblemsNameRefusedRows(front, width, places);
      assert forall i | 0 <= i < n :: front[i] == records[i];
      assert forall i | 0 <= i < |ProblemsOf(front, width, places)| ::
          ProblemsOf(front, width, places)[i] in ProblemsOf(front, width, places);
    }
  }

  /**
   * Every record becomes exactly one line or exactly one problem: a refused record is the problem at its place among the refused ones,
   * an accepted one is the line at its place among the accepted ones, with the amount as it was written.
   */
  lemma {:induction false} EveryRowIsKept(records: seq<seq<string>>, width: nat, places: Places, k: nat)
    requires k < |records|
    ensures var lines, problems := LinesOf(records, width, places), ProblemsOf(records, width, places);
            var l, p := |LinesOf(records[..k], width, places)|, |ProblemsOf(records[..k], width, places)|;
            && l + p == k && l <= |lines| && p <= |problems|
            && if Accepted(records[k], width, places)
               then l < |lines| && lines[l] == LineOf(records[k], places) && lines[l].amount == Cell(records[k], places.amount)
               else p < |problems| && problems[p] == Row(k + 2, ReasonOf(records[k], width, places))
  {
    hide Accepted, ReasonOf;
    var n := |records| - 1;
    if k < n {
      EveryRowIsKept(records[..n], width, places, k);
      assert records[..n][..k] == records[..k];
    } else {
      assert records[..k] == records[..n];
      ProblemsNameRefusedRows(records[..n], width, places);
    }
  }

  /** Only good lines are imported. */
  lemma {:induction false} LinesAreGood(records: seq<seq<string>>, width: nat, places: Places)
    ensures forall l | l in LinesOf(records, width, places) :: GoodLine(l)
  {
    hide GoodLine, LineOf;
    if records != [] {
      LinesAreGood(records[..|records| - 1], width, places);
    }
  }

  /**
   * Given a complete header, a paste is conserved: lines and row problems together are the data rows, and the only other problem is
   * the limit, reported exactly when more than 5000 lines were read.
   */
  lemma {:induction false} PasteIsConserved(text: string)
    requires Rows(text) != [] && Complete(HeaderOf(Rows(text)[0], DelimiterOf(Rows(text)[0])))
    ensures var result, limit := Parsed(text), if |Parsed(text).lines| > MAX_LINES then 1 else 0;
            && |result.lines| + |result.errors| == |Rows(text)| - 1 + limit
            && (TooManyLines in result.errors <==> |result.lines| > MAX_LINES)
            && HeaderIncomplete !in result.errors
            && forall l | l in result.lines :: GoodLine(l)
  {
    hide Rows, FieldsOf, DelimiterOf, GoodLine, LinesOf, ProblemsOf, PlacesOf, Complete;
    var rows := Rows(text);
    var delimiter := DelimiterOf(rows[0]);
    var header, records := HeaderOf(rows[0], delimiter), Records(rows[1..], delimiter);
    ProblemsNameRefusedRows(records, |header|, PlacesOf(header));
    LinesAreGood(records, |header|, PlacesOf(header));
  }
}
