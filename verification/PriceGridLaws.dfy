/**
 * What a price grid edit sends, cell by cell, and what a pasted block reads as. The rates and problems of an edit are tied to
 * the verdicts of the grid's cells, each cell being classified once; a copied block is read back whole, or with exactly the one
 * row missing that a bare last newline hides.
 */
module PriceGridLaws {
  import opened Common
  import opened Text
  import opened PriceGrid
  import Money

  // ----- pasted text

  predicate Newline(s: string) {
    s == "\n" || s == "\r\n" || s == "\r"
  }

  predicate BlockCell(c: string) {
    Trimmed(c) && OneLine(c) && '\t' !in c
  }

  predicate Block(matrix: seq<seq<string>>) {
    matrix != [] && forall i | 0 <= i < |matrix| :: BlockRow(matrix[i])
  }

  predicate BlockRow(row: seq<string>) {
    row != [] && forall i | 0 <= i < |row| :: BlockCell(row[i])
  }

  function RowLine(row: seq<string>): string {
    Join(row, "\t")
  }

  /** A block as a spreadsheet copies it, with or without a newline after the last row. */
  function BlockText(matrix: seq<seq<string>>, newline: string, trailing: bool): string {
    Join(Map(RowLine, matrix) + if trailing then [""] else [], newline)
  }

  lemma NewlineBreaks(newline: string, rest: string)
    requires Newline(newline) && (rest == "" || rest[0] != '\n')
    ensures PlainBreaks(newline + rest) == ['\n'] + PlainBreaks(rest)
  {
    var s := newline + rest;
    assert s[|newline|..] == rest;
  }

  lemma {:induction false} BreakAfter(line: string, newline: string, rest: string)
    requires OneLine(line) && Newline(newline) && (rest == "" || rest[0] != '\n')
    ensures PlainBreaks(line + (newline + rest)) == line + (['\n'] + PlainBreaks(rest))
  {
    var s := line + (newline + rest);
    if line == "" {
      NewlineBreaks(newline, rest);
      assert s == newline + rest;
    } else {
      hide Newline;
      assert s[1..] == line[1..] + (newline + rest);
      BreakAfter(line[1..], newline, rest);
      assert [line[0]] + (line[1..] + (['\n'] + PlainBreaks(rest))) == line + (['\n'] + PlainBreaks(rest));
    }
  }

  lemma {:induction false} NoBreaks(line: string)
    requires OneLine(line)
    ensures PlainBreaks(line) == line
  {
    if line != "" {
      NoBreaks(line[1..]);
      assert [line[0]] + line[1..] == line;
    }
  }

  predicate OneLines(lines: seq<string>) {
    forall i | 0 <= i < |lines| :: OneLine(lines[i])
  }

  lemma {:induction false} BreaksOfJoin(lines: seq<string>, newline: string)
    requires OneLines(lines) && Newline(newline)
    ensures PlainBreaks(Join(lines, newline)) == Join(lines, "\n")
  {
    hide PlainBreaks, OneLine;
    if lines == [] {
      NoReturns("");
    } else if |lines| == 1 {
      NoBreaks(lines[0]);
    } else {
      if newline == "\n" {
        LineFeedsStay(lines);
      } else {
        BreaksOfJoin(lines[1..], newline);
        JoinStart(lines[1..], newline);
        var rest := Join(lines[1..], newline);
        BreakAfter(lines[0], newline, rest);
        assert lines[0] + newline + rest == lines[0] + (newline + rest);
        assert lines[0] + "\n" + PlainBreaks(rest) == lines[0] + (['\n'] + PlainBreaks(rest));
      }
    }
  }

  lemma JoinStart(lines: seq<string>, newline: string)
    requires OneLines(lines) && (newline == "\r\n" || newline == "\r")
    ensures Join(lines, newline) == "" || Join(lines, newline)[0] != '\n'
  {
  }

  lemma {:induction false} LineFeedsStay(lines: seq<string>)
    requires OneLines(lines)
    ensures '\r' !in Join(lines, "\n")
    ensures PlainBreaks(Join(lines, "\n")) == Join(lines, "\n")
  {
    if |lines| >= 2 {
      LineFeedsStay(lines[1..]);
      NoReturns(Join(lines, "\n"));
    } else if |lines| == 1 {
      NoReturns(lines[0]);
    }
  }

  lemma {:induction false} NoReturns(s: string)
    requires '\r' !in s
    ensures PlainBreaks(s) == s
  {
    if s != "" {
      NoReturns(s[1..]);
      assert [s[0]] + s[1..] == s;
    }
  }

  lemma {:induction false} RowLineReads(row: seq<string>)
    requires BlockRow(row)
    ensures OneLine(RowLine(row)) && Map(Trim, Split(RowLine(row), '\t')) == row
    ensures RowLine(row) == "" <==> row == [""]
  {
    hide Trim, Trimmed;
    assert "\t" == ['\t'];
    SplitJoin(row, '\t');
    MapTrimmed(row);
    if |row| >= 2 {
      RowLineReads(row[1..]);
      assert RowLine(row) == row[0] + "\t" + RowLine(row[1..]);
    }
  }

  lemma {:induction false} LinesReadBack(matrix: seq<seq<string>>)
    requires Block(matrix)
    ensures OneLines(Map(RowLine, matrix))
    ensures Map((line: string) => Map(Trim, Split(line, '\t')), Map(RowLine, matrix)) == matrix
  {
    hide BlockRow, RowLine, Trim;
    forall i | 0 <= i < |matrix|
      ensures OneLine(RowLine(matrix[i])) && Map(Trim, Split(RowLine(matrix[i]), '\t')) == matrix[i]
    {
      assert BlockRow(matrix[i]);
      RowLineReads(matrix[i]);
    }
  }

  lemma {:induction false} BlockLines(matrix: seq<seq<string>>, newline: string, trailing: bool)
    requires Block(matrix) && Newline(newline)
    ensures Split(PlainBreaks(BlockText(matrix, newline, trailing)), '\n') == Map(RowLine, matrix) + if trailing then [""] else []
  {
    hide RowLine, Block;
    LinesReadBack(matrix);
    BlockIsNotEmpty(matrix);
    var lines := Map(RowLine, matrix) + if trailing then [""] else [];
    assert OneLines(lines);
    BreaksOfJoin(lines, newline);
    assert "\n" == ['\n'];
    SplitJoin(lines, '\n');
  }

  lemma BlockIsNotEmpty(matrix: seq<seq<string>>)
    requires Block(matrix)
    ensures matrix != []
  {
  }

  lemma LastLine(matrix: seq<seq<string>>)
    requires Block(matrix)
    ensures Map(RowLine, matrix)[|matrix| - 1] == "" <==> matrix[|matrix| - 1] == [""]
  {
    hide RowLine;
    assert BlockRow(matrix[|matrix| - 1]);
    RowLineReads(matrix[|matrix| - 1]);
  }

  /** A copied block with a newline at its end reads back whole, whatever the newline style. */
  lemma {:induction false} TrailingNewlineAddsNoRow(matrix: seq<seq<string>>, newline: string)
    requires Block(matrix) && Newline(newline)
    ensures ParsePaste(BlockText(matrix, newline, true)) == matrix
  {
    hide RowLine, Block, PlainBreaks, BlockText, Trim;
    BlockLines(matrix, newline, true);
    BlockIsNotEmpty(matrix);
    LinesReadBack(matrix);
    var rows := Map(RowLine, matrix) + [""];
    assert rows[..|rows| - 1] == Map(RowLine, matrix);
  }

  /** Without the newline at the end it reads back exactly unless its last row, below others, is a single empty cell: that row is dropped. */
  lemma {:induction false} BareBlockReadsBackIff(matrix: seq<seq<string>>, newline: string)
    requires Block(matrix) && Newline(newline)
    ensures ParsePaste(BlockText(matrix, newline, false)) == matrix <==> (|matrix| == 1 || matrix[|matrix| - 1] != [""])
  {
    hide RowLine, Block, PlainBreaks, BlockText, Trim;
    BlockLines(matrix, newline, false);
    LinesReadBack(matrix);
    LastLine(matrix);
    assert Map(RowLine, matrix) + [] == Map(RowLine, matrix);
  }

  // ----- the cells and their verdicts

  ghost predicate Judged(draft: Draft, digits: string -> nat, i: int, k: int, v: Verdict) {
    0 <= i < |draft.plans| && 0 <= k < |draft.dates| && v == VerdictOf(draft, draft.plans[i], draft.dates[k], digits)
  }

  lemma JudgedCell(draft: Draft, digits: string -> nat, i: int, k: int, v: Verdict)
    requires Judged(draft, digits, i, k, v)
    ensures 0 <= i < |draft.plans| && 0 <= k < |draft.dates| && v == VerdictOf(draft, draft.plans[i], draft.dates[k], digits)
  {
  }

  lemma {:induction false} PlanVerdictsAt(draft: Draft, plan: Plan, digits: string -> nat, n: nat)
    requires n <= |draft.dates|
    ensures |PlanVerdicts(draft, plan, digits, n)| == n
    ensures forall k | 0 <= k < n :: PlanVerdicts(draft, plan, digits, n)[k] == VerdictOf(draft, plan, draft.dates[k], digits)
  {
    hide VerdictOf;
    if n > 0 {
      PlanVerdictsAt(draft, plan, digits, n - 1);
    }
  }

  /** The verdicts are those of the grid's cells. */
  lemma {:induction false} VerdictsAreOfCells(draft: Draft, digits: string -> nat, n: nat, v: Verdict)
    requires n <= |draft.plans|
    ensures v in Verdicts(draft, digits, n) <==> exists i, k :: i < n && Judged(draft, digits, i, k, v)
  {
    hide VerdictOf;
    if n > 0 {
      var plan := draft.plans[n - 1];
      VerdictsAreOfCells(draft, digits, n - 1, v);
      PlanVerdictsAt(draft, plan, digits, |draft.dates|);
      if v in PlanVerdicts(draft, plan, digits, |draft.dates|) {
        var k :| 0 <= k < |draft.dates| && v == VerdictOf(draft, plan, draft.dates[k], digits);
        assert Judged(draft, digits, n - 1, k, v);
      }
      if i, k :| i < n && Judged(draft, digits, i, k, v) {
        if i == n - 1 {
          assert PlanVerdicts(draft, plan, digits, |draft.dates|)[k] == v;
        }
      }
    }
  }

  lemma {:induction false} RatesMembers(vs: seq<Verdict>, r: Rate)
    ensures r in Rates(vs) <==> Priced(r) in vs
  {
    if vs != [] {
      RatesMembers(vs[..|vs| - 1], r);
      assert vs == vs[..|vs| - 1] + [vs[|vs| - 1]];
    }
  }

  lemma {:induction false} ProblemsMembers(vs: seq<Verdict>, p: Problem)
    ensures p in Problems(vs) <==> Bad(p) in vs
  {
    if vs != [] {
      ProblemsMembers(vs[..|vs| - 1], p);
      assert vs == vs[..|vs| - 1] + [vs[|vs| - 1]];
    }
  }

  /** Each problem is kept once. */
  lemma {:induction false} OnceKeeps(problems: seq<Problem>)
    ensures Distinct(Once(problems)) && forall p :: p in Once(problems) <==> p in problems
  {
    if problems != [] {
      OnceKeeps(problems[..|problems| - 1]);
      assert problems == problems[..|problems| - 1] + [problems[|problems| - 1]];
    }
  }

  lemma RateHasItsKey(draft: Draft, plan: Plan, date: string, digits: string -> nat)
    ensures var v := VerdictOf(draft, plan, date, digits); v.Priced? ==> v.rate.planId == plan.id && v.rate.date == date
  {
  }

  predicate SameKey(a: Rate, b: Rate) {
    a.planId == b.planId && a.date == b.date
  }

  predicate DistinctKeys(rates: seq<Rate>) {
    forall i, j | 0 <= i < j < |rates| :: !SameKey(rates[i], rates[j])
  }

  /** The rates are of one plan, on distinct dates among these. */
  predicate RatesOn(rates: seq<Rate>, id: string, dates: seq<string>) {
    DistinctKeys(rates) && forall r | r in rates :: r.planId == id && r.date in dates
  }

  lemma RatesOnNext(rates: seq<Rate>, last: seq<Rate>, id: string, dates: seq<string>, n: nat)
    requires 0 < n <= |dates| && Distinct(dates) && RatesOn(rates, id, dates[..n - 1])
    requires |last| <= 1 && forall r | r in last :: r.planId == id && r.date == dates[n - 1]
    ensures RatesOn(rates + last, id, dates[..n])
  {
    assert dates[..n] == dates[..n - 1] + [dates[n - 1]];
    assert forall i | 0 <= i < |rates| :: rates[i] in rates;
    assert forall i | 0 <= i < |last| :: last[i] in last;
  }

  lemma {:induction false} PlanRatesDistinct(draft: Draft, plan: Plan, digits: string -> nat, n: nat)
    requires n <= |draft.dates| && Distinct(draft.dates)
    ensures RatesOn(Rates(PlanVerdicts(draft, plan, digits, n)), plan.id, draft.dates[..n])
  {
    hide VerdictOf, Rates, Distinct, RatesOn;
    if n == 0 {
      NoVerdicts();
      NoRatesOn(plan.id, draft.dates[..n]);
    } else {
      var before, v := PlanVerdicts(draft, plan, digits, n - 1), VerdictOf(draft, plan, draft.dates[n - 1], digits);
      PlanRatesDistinct(draft, plan, digits, n - 1);
      RatesAppend(before, [v]);
      RatesOne(v);
      RateHasItsKey(draft, plan, draft.dates[n - 1], digits);
      RatesOnNext(Rates(before), Rates([v]), plan.id, draft.dates, n);
    }
  }

  lemma NoRatesOn(id: string, dates: seq<string>)
    ensures RatesOn([], id, dates)
  {
  }

  /** No cell is sent twice: with distinct plans and dates the rates have distinct plan and date. */
  lemma {:induction false} RatesAreOfDistinctCells(draft: Draft, digits: string -> nat, n: nat)
    requires n <= |draft.plans| && DistinctPlans(draft.plans) && Distinct(draft.dates)
    ensures DistinctKeys(Rates(Verdicts(draft, digits, n)))
    ensures forall r | r in Rates(Verdicts(draft, digits, n)) :: exists i :: 0 <= i < n && draft.plans[i].id == r.planId
  {
    hide VerdictOf, Rates, PlanVerdicts;
    if n == 0 {
      NoVerdicts();
    } else {
      var plan := draft.plans[n - 1];
      var before, row := Verdicts(draft, digits, n - 1), PlanVerdicts(draft, plan, digits, |draft.dates|);
      RatesAreOfDistinctCells(draft, digits, n - 1);
      PlanRatesDistinct(draft, plan, digits, |draft.dates|);
      RatesAppend(before, row);
      assert forall i | 0 <= i < |Rates(before)| :: Rates(before)[i] in Rates(before);
      assert forall i | 0 <= i < |Rates(row)| :: Rates(row)[i] in Rates(row);
    }
  }

  /** The problem of a cell names the cell, except that a missing basis names the plan only. */
  predicate ProblemOf(p: Problem, id: string, date: string) {
    match p
    case Cleared(i, d) => i == id && d == date
    case NotAPrice(i, d, _, _) => i == id && d == date
    case NoBasis(i) => i == id
    case TooManyCells(_) => false
  }

  lemma ProblemHasItsKey(draft: Draft, plan: Plan, date: string, digits: string -> nat)
    ensures var v := VerdictOf(draft, plan, date, digits); v.Bad? ==> ProblemOf(v.problem, plan.id, date)
  {
  }

  predicate NamesTheCell(p: Problem, id: string, date: string) {
    ProblemOf(p, id, date) && !p.NoBasis?
  }

  /**
   * Every grid cell is classified once. A rate with the cell's plan and date is sent exactly when the cell is priced, and then it is the cell's rate;
   * a problem naming the cell is reported exactly when that is the cell's problem; an untouched or unchanged cell gives neither.
   */
  lemma {:induction false} CellIsClassifiedOnce(draft: Draft, digits: string -> nat, i: nat, k: nat)
    requires i < |draft.plans| && k < |draft.dates| && DistinctPlans(draft.plans) && Distinct(draft.dates)
    ensures var all := Verdicts(draft, digits, |draft.plans|);
            var id, date, v := draft.plans[i].id, draft.dates[k], VerdictOf(draft, draft.plans[i], draft.dates[k], digits);
            && (forall r | r in Rates(all) && r.planId == id && r.date == date :: v == Priced(r))
            && (forall p | p in Once(Problems(all)) && NamesTheCell(p, id, date) :: v == Bad(p))
            && (v.Priced? ==> v.rate in Rates(all) && v.rate.planId == id && v.rate.date == date)
            && (v.Bad? ==> v.problem in Once(Problems(all)) && ProblemOf(v.problem, id, date))
  {
    hide VerdictOf, Verdicts, Rates, Problems, Once, ProblemOf;
    var all := Verdicts(draft, digits, |draft.plans|);
    var id, date, v := draft.plans[i].id, draft.dates[k], VerdictOf(draft, draft.plans[i], draft.dates[k], digits);
    OnceKeeps(Problems(all));
    RateHasItsKey(draft, draft.plans[i], date, digits);
    ProblemHasItsKey(draft, draft.plans[i], date, digits);
    VerdictsAreOfCells(draft, digits, |draft.plans|, v);
    assert Judged(draft, digits, i, k, v);
    if v.Priced? {
      RatesMembers(all, v.rate);
    }
    if v.Bad? {
      ProblemsMembers(all, v.problem);
    }
    forall r | r in Rates(all) && r.planId == id && r.date == date
      ensures v == Priced(r)
    {
      RateIsOfTheCell(draft, digits, i, k, r);
    }
    forall p | p in Problems(all) && NamesTheCell(p, id, date)
      ensures v == Bad(p)
    {
      ProblemIsOfTheCell(draft, digits, i, k, p);
    }
  }

  lemma {:induction false} RateIsOfTheCell(draft: Draft, digits: string -> nat, i: nat, k: nat, r: Rate)
    requires i < |draft.plans| && k < |draft.dates| && DistinctPlans(draft.plans) && Distinct(draft.dates)
    requires r in Rates(Verdicts(draft, digits, |draft.plans|)) && r.planId == draft.plans[i].id && r.date == draft.dates[k]
    ensures VerdictOf(draft, draft.plans[i], draft.dates[k], digits) == Priced(r)
  {
    hide VerdictOf, Verdicts, Rates;
    var all := Verdicts(draft, digits, |draft.plans|);
    RatesMembers(all, r);
    VerdictsAreOfCells(draft, digits, |draft.plans|, Priced(r));
    var a, b :| Judged(draft, digits, a, b, Priced(r));
    JudgedCell(draft, digits, a, b, Priced(r));
    RateHasItsKey(draft, draft.plans[a], draft.dates[b], digits);
    assert a == i && b == k;
  }

  lemma {:induction false} ProblemIsOfTheCell(draft: Draft, digits: string -> nat, i: nat, k: nat, p: Problem)
    requires i < |draft.plans| && k < |draft.dates| && DistinctPlans(draft.plans) && Distinct(draft.dates)
    requires p in Problems(Verdicts(draft, digits, |draft.plans|)) && NamesTheCell(p, draft.plans[i].id, draft.dates[k])
    ensures VerdictOf(draft, draft.plans[i], draft.dates[k], digits) == Bad(p)
  {
    hide VerdictOf, Verdicts, Problems;
    var all := Verdicts(draft, digits, |draft.plans|);
    ProblemsMembers(all, p);
    VerdictsAreOfCells(draft, digits, |draft.plans|, Bad(p));
    var a, b :| Judged(draft, digits, a, b, Bad(p));
    JudgedCell(draft, digits, a, b, Bad(p));
    ProblemHasItsKey(draft, draft.plans[a], draft.dates[b], digits);
    assert a == i && b == k;
  }

  /**
   * A rate that is sent is of a cell whose text was changed, on a plan with a chosen basis; its amount is positive and is the typed decimal
   * exactly; it carries the cell's version token, or none where there was no price.
   */
  lemma {:induction false} RateIsTheTypedPrice(draft: Draft, digits: string -> nat, r: Rate)
    requires r in Rates(Verdicts(draft, digits, |draft.plans|))
    ensures exists i, k, d: Money.Decimal ::
              && Judged(draft, digits, i, k, Priced(r))
              && var plan, text, base := draft.plans[i], Find(draft.edited, r.planId, r.date), Find(draft.baseline, r.planId, r.date);
                 && r.planId == plan.id && r.date == draft.dates[k] && r.currency == plan.currency && r.occupancy == plan.occupancy
                 && text.Some? && Trim(text.value) == Money.DecimalSource(d)
                 && Money.SameAmount(r.amountMinor, d, digits(plan.currency)) && 0 < ValueOf(r.amountMinor) <= Money.MAX_SAFE_INTEGER
                 && (base.Some? ==> Trim(base.value.amount) != Trim(text.value) && r.expectedUpdatedAt == base.value.updatedAt)
                 && (base.None? ==> r.expectedUpdatedAt == None)
                 && r.basis == BasisOf(draft, plan.id) != Unchosen
  {
    var all := Verdicts(draft, digits, |draft.plans|);
    RatesMembers(all, r);
    VerdictsAreOfCells(draft, digits, |draft.plans|, Priced(r));
    hide Verdicts, Rates, Trim, Money.ParseMajorToMinor, Money.DecimalSource;
    var i, k :| Judged(draft, digits, i, k, Priced(r));
    var typed := Trim(Find(draft.edited, r.planId, r.date).value);
    TrimIdempotent(Find(draft.edited, r.planId, r.date).value);
    Money.ParseIsExact(typed, digits(r.currency), r.amountMinor);
    var d: Money.Decimal :| Trim(typed) == Money.DecimalSource(d) && Money.SameAmount(r.amountMinor, d, digits(r.currency)) && ValueOf(r.amountMinor) <= Money.MAX_SAFE_INTEGER;
    assert Judged(draft, digits, i, k, Priced(r));
  }
}
