/**
 * The multi-plan price grid: spreadsheet text pasted into it, and the calendar edit made of what was typed.
 * The number of fraction digits of a currency is the parameter `digits`.
 */
module PriceGrid {
  import opened Common
  import opened Text
  import Money

  datatype Plan = Plan(id: string, code: string, currency: string, occupancy: int)

  datatype Baseline = Baseline(amount: string, updatedAt: Option<string>)

  datatype Basis = Net | Sell | Unchosen

  /** Texts by plan id, then by date. */
  type Typed = map<string, map<string, string>>

  datatype Draft = Draft(plans: seq<Plan>, dates: seq<string>, baseline: map<string, map<string, Baseline>>, edited: Typed, basis: map<string, Basis>)

  datatype Problem =
    | Cleared(planId: string, date: string)
    | NoBasis(planId: string)
    | NotAPrice(planId: string, date: string, shown: string, currency: string)
    | TooManyCells(count: nat)

  datatype Rate = Rate(planId: string, date: string, occupancy: int, amountMinor: string, basis: Basis, currency: string, expectedUpdatedAt: Option<string>)

  const MAX_GRID_CELLS := 366

  function At<T>(s: seq<T>, i: int): Option<T> {
    if 0 <= i < |s| then Some(s[i]) else None
  }

  function Find<V>(rows: map<string, map<string, V>>, id: string, date: string): Option<V> {
    if id in rows && date in rows[id] then Some(rows[id][date]) else None
  }

  function Put(rows: Typed, id: string, date: string, value: string): Typed {
    rows[id := (if id in rows then rows[id] else map[])[date := value]]
  }

  // ----- pasted text

  /** `replace(/\r\n?/g, '\n')`. */
  function PlainBreaks(s: string): string {
    if s == "" then ""
    else if |s| >= 2 && s[0] == '\r' && s[1] == '\n' then ['\n'] + PlainBreaks(s[2..])
    else if s[0] == '\r' then ['\n'] + PlainBreaks(s[1..])
    else [s[0]] + PlainBreaks(s[1..])
  }

  /** `parsePaste`. */
  function ParsePaste(text: string): seq<seq<string>> {
    var rows := Split(PlainBreaks(text), '\n');
    var kept := if |rows| > 1 && rows[|rows| - 1] == "" then rows[..|rows| - 1] else rows;
    Map((row: string) => Map(Trim, Split(row, '\t')), kept)
  }

  // ----- pasting

  /** The first `n` pasted cells of one row, to the right from date `start`. */
  function PasteRow(rows: Typed, id: string, dates: seq<string>, start: int, cells: seq<string>, n: nat): Typed
    requires n <= |cells|
  {
    if n == 0 then rows
    else
      var before := PasteRow(rows, id, dates, start, cells, n - 1);
      var date := At(dates, start + n - 1);
      if date.Some? then Put(before, id, date.value, cells[n - 1]) else before
  }

  /** The first `n` pasted rows, down from plan `first`. */
  function PasteRows(rows: Typed, plans: seq<Plan>, dates: seq<string>, first: int, start: int, matrix: seq<seq<string>>, n: nat): Typed
    requires n <= |matrix|
  {
    if n == 0 then rows
    else
      var before := PasteRows(rows, plans, dates, first, start, matrix, n - 1);
      var plan := At(plans, first + n - 1);
      if plan.Some? then PasteRow(before, plan.value.id, dates, start, matrix[n - 1], |matrix[n - 1]|) else before
  }

  /** `applyPaste`. */
  method ApplyPaste(edited: Typed, plans: seq<Plan>, dates: seq<string>, planIndex: int, dateIndex: int, matrix: seq<seq<string>>)
      returns (next: Typed)
    ensures next == PasteRows(edited, plans, dates, planIndex, dateIndex, matrix, |matrix|)
  {
    next := edited;
    for dy := 0 to |matrix|
      invariant next == PasteRows(edited, plans, dates, planIndex, dateIndex, matrix, dy)
    {
      var plan := At(plans, planIndex + dy);
      if plan.None? {
        continue;
      }
      ghost var before := next;
      var cells := matrix[dy];
      for dx := 0 to |cells|
        invariant next == PasteRow(before, plan.value.id, dates, dateIndex, cells, dx)
      {
        var date := At(dates, dateIndex + dx);
        if date.None? {
          continue;
        }
        next := Put(next, plan.value.id, date.value, cells[dx]);
      }
    }
  }

  lemma PutFound(rows: Typed, id: string, date: string, value: string, id': string, date': string)
    ensures Find(Put(rows, id, date, value), id', date') == if id' == id && date' == date then Some(value) else Find(rows, id', date')
  {
  }

  lemma {:induction false} PasteRowMisses(rows: Typed, id: string, dates: seq<string>, start: int, cells: seq<string>, n: nat, id': string, date': string)
    requires n <= |cells|
    requires id' != id || forall k | start <= k < start + n :: At(dates, k) != Some(date')
    ensures Find(PasteRow(rows, id, dates, start, cells, n), id', date') == Find(rows, id', date')
  {
    hide Find, Put;
    if n > 0 {
      PasteRowMisses(rows, id, dates, start, cells, n - 1, id', date');
      if At(dates, start + n - 1).Some? {
        PutFound(PasteRow(rows, id, dates, start, cells, n - 1), id, dates[start + n - 1], cells[n - 1], id', date');
      }
    }
  }

  lemma {:induction false} PasteRowHits(rows: Typed, id: string, dates: seq<string>, start: int, cells: seq<string>, n: nat, k: nat)
    requires n <= |cells| && k < |dates| && Distinct(dates) && 0 <= k - start < n
    ensures Find(PasteRow(rows, id, dates, start, cells, n), id, dates[k]) == Some(cells[k - start])
  {
    hide Find, Put;
    var before := PasteRow(rows, id, dates, start, cells, n - 1);
    if k - start < n - 1 {
      PasteRowHits(rows, id, dates, start, cells, n - 1, k);
    }
    if At(dates, start + n - 1).Some? {
      PutFound(before, id, dates[start + n - 1], cells[n - 1], id, dates[k]);
    }
  }

  /** The text that the paste puts over grid cell (`i`, `k`), if the pasted rectangle covers it. */
  function Covering(matrix: seq<seq<string>>, planIndex: int, dateIndex: int, i: int, k: int): Option<string> {
    var cells := At(matrix, i - planIndex);
    if cells.Some? then At(cells.value, k - dateIndex) else None
  }

  predicate DistinctPlans(plans: seq<Plan>) {
    forall i, j | 0 <= i < j < |plans| :: plans[i].id != plans[j].id
  }

  lemma {:induction false} PasteRowsCell(rows: Typed, plans: seq<Plan>, dates: seq<string>, first: int, start: int, matrix: seq<seq<string>>, n: nat, i: nat, k: nat)
    requires n <= |matrix| && i < |plans| && k < |dates| && DistinctPlans(plans) && Distinct(dates)
    ensures var over := if i - first < n then Covering(matrix, first, start, i, k) else None;
            Find(PasteRows(rows, plans, dates, first, start, matrix, n), plans[i].id, dates[k])
            == if over.Some? then over else Find(rows, plans[i].id, dates[k])
  {
    hide Find, PasteRow;
    if n > 0 {
      PasteRowsCell(rows, plans, dates, first, start, matrix, n - 1, i, k);
      var before := PasteRows(rows, plans, dates, first, start, matrix, n - 1);
      var plan := At(plans, first + n - 1);
      var cells := matrix[n - 1];
      if plan.Some? {
        if i == first + n - 1 && 0 <= k - start < |cells| {
          PasteRowHits(before, plan.value.id, dates, start, cells, |cells|, k);
        } else {
          PasteRowMisses(before, plan.value.id, dates, start, cells, |cells|, plans[i].id, dates[k]);
        }
      }
    }
  }

  /** With distinct plans and dates, a paste writes exactly the pasted rectangle clipped to the grid; every other cell keeps its text, or stays untouched. */
  lemma {:induction false} PasteIsTheRectangle(rows: Typed, plans: seq<Plan>, dates: seq<string>, planIndex: int, dateIndex: int, matrix: seq<seq<string>>, i: nat, k: nat)
    requires i < |plans| && k < |dates| && DistinctPlans(plans) && Distinct(dates)
    ensures Find(PasteRows(rows, plans, dates, planIndex, dateIndex, matrix, |matrix|), plans[i].id, dates[k])
         == if Covering(matrix, planIndex, dateIndex, i, k).Some? then Covering(matrix, planIndex, dateIndex, i, k) else Find(rows, plans[i].id, dates[k])
  {
    PasteRowsCell(rows, plans, dates, planIndex, dateIndex, matrix, |matrix|, i, k);
  }

  /** Even with repeated plans or dates, a text outside the grid, or in a cell the rectangle does not reach, is kept. */
  lemma {:induction false} PasteKeepsTheRest(rows: Typed, plans: seq<Plan>, dates: seq<string>, planIndex: int, dateIndex: int, matrix: seq<seq<string>>, n: nat, id: string, date: string)
    requires n <= |matrix|
    requires forall i: int, k: int | 0 <= i < |plans| && 0 <= k < |dates| && plans[i].id == id && dates[k] == date ::
               Covering(matrix, planIndex, dateIndex, i, k).None?
    ensures Find(PasteRows(rows, plans, dates, planIndex, dateIndex, matrix, n), id, date) == Find(rows, id, date)
  {
    hide Find, PasteRow;
    if n > 0 {
      PasteKeepsTheRest(rows, plans, dates, planIndex, dateIndex, matrix, n - 1, id, date);
      var i := planIndex + n - 1;
      var plan := At(plans, i);
      if plan.Some? {
        if plan.value.id == id {
          forall k | dateIndex <= k < dateIndex + |matrix[n - 1]|
            ensures At(dates, k) != Some(date)
          {
            assert At(dates, k) == Some(date) ==> Covering(matrix, planIndex, dateIndex, i, k).None?;
          }
        }
        PasteRowMisses(PasteRows(rows, plans, dates, planIndex, dateIndex, matrix, n - 1), plan.value.id, dates, dateIndex, matrix[n - 1], |matrix[n - 1]|, id, date);
      }
    }
  }

  // ----- the edit

  datatype Verdict = Untouched | Unchanged | Bad(problem: Problem) | Priced(rate: Rate)

  function BasisOf(draft: Draft, id: string): Basis {
    if id in draft.basis then draft.basis[id] else Unchosen
  }

  function Price(typed: string, currency: string, digits: string -> nat): Option<string> {
    Money.ParseMajorToMinor(typed, digits(currency))
  }

  predicate Positive(minor: Option<string>) {
    minor.Some? && AllDigits(minor.value) && ValueOf(minor.value) > 0
  }

  /** What becomes of one grid cell. */
  function VerdictOf(draft: Draft, plan: Plan, date: string, digits: string -> nat): Verdict {
    var text, base := Find(draft.edited, plan.id, date), Find(draft.baseline, plan.id, date);
    if text.None? then Untouched
    else
      var typed := Trim(text.value);
      var minor := Price(typed, plan.currency, digits);
      if (typed == "" && base.None?) || (base.Some? && Trim(base.value.amount) == typed) then Unchanged
      else if typed == "" then Bad(Cleared(plan.id, date))
      else if BasisOf(draft, plan.id) == Unchosen then Bad(NoBasis(plan.id))
      else if !Positive(minor) then Bad(NotAPrice(plan.id, date, Take(typed, 20), plan.currency))
      else Priced(Rate(plan.id, date, plan.occupancy, minor.value, BasisOf(draft, plan.id), plan.currency, if base.Some? then base.value.updatedAt else None))
  }

  /** The verdicts of a plan's first `k` dates. */
  function PlanVerdicts(draft: Draft, plan: Plan, digits: string -> nat, k: nat): seq<Verdict>
    requires k <= |draft.dates|
  {
    if k == 0 then [] else PlanVerdicts(draft, plan, digits, k - 1) + [VerdictOf(draft, plan, draft.dates[k - 1], digits)]
  }

  /** The verdicts of the first `n` plans, plan by plan. */
  function Verdicts(draft: Draft, digits: string -> nat, n: nat): seq<Verdict>
    requires n <= |draft.plans|
  {
    if n == 0 then [] else Verdicts(draft, digits, n - 1) + PlanVerdicts(draft, draft.plans[n - 1], digits, |draft.dates|)
  }

  function Rates(vs: seq<Verdict>): seq<Rate> {
    if vs == [] then [] else Rates(vs[..|vs| - 1]) + if vs[|vs| - 1].Priced? then [vs[|vs| - 1].rate] else []
  }

  function Problems(vs: seq<Verdict>): seq<Problem> {
    if vs == [] then [] else Problems(vs[..|vs| - 1]) + if vs[|vs| - 1].Bad? then [vs[|vs| - 1].problem] else []
  }

  /** Each problem once, where it came first. */
  function Once(problems: seq<Problem>): seq<Problem> {
    if problems == [] then []
    else
      var before, last := Once(problems[..|problems| - 1]), problems[|problems| - 1];
      if last in before then before else before + [last]
  }

  lemma {:induction false} RatesAppend(a: seq<Verdict>, b: seq<Verdict>)
    ensures Rates(a + b) == Rates(a) + Rates(b) && Problems(a + b) == Problems(a) + Problems(b)
  {
    if b == [] {
      assert a + b == a;
    } else {
      assert (a + b)[..|a + b| - 1] == a + b[..|b| - 1];
      RatesAppend(a, b[..|b| - 1]);
    }
  }

  lemma RatesOne(v: Verdict)
    ensures Rates([v]) == (if v.Priced? then [v.rate] else []) && Problems([v]) == if v.Bad? then [v.problem] else []
  {
    assert [v][..0] == [];
  }

  /** One cell, in the order of the source's checks. */
  method CheckCell(draft: Draft, plan: Plan, date: string, digits: string -> nat) returns (rate: Option<Rate>, problem: Option<Problem>)
    ensures var v := VerdictOf(draft, plan, date, digits);
            (rate == if v.Priced? then Some(v.rate) else None) && problem == if v.Bad? then Some(v.problem) else None
  {
    hide Trim, Price;
    rate, problem := None, None;
    var row := if plan.id in draft.edited then draft.edited[plan.id] else map[];
    if date !in row {
      return;
    }
    var typed := Trim(row[date]);
    var base := Find(draft.baseline, plan.id, date);
    if typed == "" && base.None? {
      return;
    }
    if base.Some? && typed == Trim(base.value.amount) {
      return;
    }
    if typed == "" {
      problem := Some(Cleared(plan.id, date));
      return;
    }
    var basis := BasisOf(draft, plan.id);
    if basis != Net && basis != Sell {
      problem := Some(NoBasis(plan.id));
      return;
    }
    var minor := Price(typed, plan.currency, digits);
    if !Positive(minor) {
      problem := Some(NotAPrice(plan.id, date, Take(typed, 20), plan.currency));
      return;
    }
    rate := Some(Rate(plan.id, date, plan.occupancy, minor.value, basis, plan.currency, if base.Some? then base.value.updatedAt else None));
  }

  /** `buildGridEdit`. */
  method BuildGridEdit(draft: Draft, digits: string -> nat) returns (edit: Option<seq<Rate>>, problems: seq<Problem>, changed: nat)
    ensures var all := Verdicts(draft, digits, |draft.plans|);
            && changed == |Rates(all)|
            && edit == (if 0 < changed <= MAX_GRID_CELLS then Some(Rates(all)) else None)
            && problems == Once(Problems(all)) + if changed > MAX_GRID_CELLS then [TooManyCells(changed)] else []
  {
    hide VerdictOf, Rates, Problems, Once;
    var rates, found := CheckPlans(draft, digits);
    problems := Deduplicate(found);
    changed := |rates|;
    if |rates| > MAX_GRID_CELLS {
      return None, problems + [TooManyCells(|rates|)], changed;
    }
    edit := if |rates| > 0 then Some(rates) else None;
  }

  method CheckPlans(draft: Draft, digits: string -> nat) returns (rates: seq<Rate>, found: seq<Problem>)
    ensures rates == Rates(Verdicts(draft, digits, |draft.plans|)) && found == Problems(Verdicts(draft, digits, |draft.plans|))
  {
    hide VerdictOf, Rates, Problems;
    rates, found := [], [];
    NoVerdicts();
    for i := 0 to |draft.plans|
      invariant rates == Rates(Verdicts(draft, digits, i)) && found == Problems(Verdicts(draft, digits, i))
    {
      var plan := draft.plans[i];
      ghost var before := Verdicts(draft, digits, i);
      assert before + [] == before;
      for k := 0 to |draft.dates|
        invariant rates == Rates(before + PlanVerdicts(draft, plan, digits, k)) && found == Problems(before + PlanVerdicts(draft, plan, digits, k))
      {
        ghost var v := VerdictOf(draft, plan, draft.dates[k], digits);
        ghost var soFar := before + PlanVerdicts(draft, plan, digits, k);
        RatesAppend(soFar, [v]);
        RatesOne(v);
        assert before + PlanVerdicts(draft, plan, digits, k + 1) == soFar + [v];
        var rate, problem := CheckCell(draft, plan, draft.dates[k], digits);
        if rate.Some? {
          rates := rates + [rate.value];
        }
        if problem.Some? {
          found := found + [problem.value];
        }
      }
    }
  }

  lemma NoVerdicts()
    ensures Rates([]) == [] && Problems([]) == []
  {
  }

  /** The map keyed by plan, date and message keeps the first place of each problem. */
  method Deduplicate(found: seq<Problem>) returns (unique: seq<Problem>)
    ensures unique == Once(found)
  {
    unique := [];
    for i := 0 to |found|
      invariant unique == Once(found[..i])
    {
      assert found[..i + 1][..i] == found[..i];
      if found[i] !in unique {
        unique := unique + [found[i]];
      }
    }
    assert found[..|found|] == found;
  }
}
