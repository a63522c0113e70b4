/** The stay picker: reading a day, counting nights, and the Monday-first month grid. */
module StayCalendar {
  import opened Common
  import opened Text
  import opened Calendar

  const DAY: int := 86_400_000

  /** The day number `Date.UTC` makes of its arguments: months and days carry over, and the years 0 to 99 mean 1900 to 1999. */
  function MakeDay(year: nat, month: nat, day: nat): int {
    var fullYear := if year <= 99 then 1900 + year else year;
    var months := fullYear * 12 + month - 1;
    DayFromYear(months / 12) + MonthStart(months / 12, months % 12 + 1) + day - 1
  }

  /** The time value of a day text, when the UTC fields read back are the ones written. */
  function Parse(value: string): Option<int> {
    if !IsDayText(value) then None
    else
      var written := Date(ValueOf(value[0..4]), ValueOf(value[5..7]), ValueOf(value[8..10]));
      var n := MakeDay(written.year, written.month, written.day);
      if FIRST_DAY <= n <= LAST_DAY && DateOf(n) == written then Some(n * DAY) else None
  }

  function NightCount(checkIn: string, checkOut: string): Option<int> {
    var start, end := Parse(checkIn), Parse(checkOut);
    if start.None? || end.None? || end.value <= start.value then None else Some((end.value - start.value) / DAY)
  }

  lemma MakeDayOfReal(d: Date)
    requires Valid(d) && d.year >= 100
    ensures MakeDay(d.year, d.month, d.day) == Number(d)
  {
    var months := d.year * 12 + d.month - 1;
    assert months / 12 == d.year && months % 12 + 1 == d.month;
  }

  /** A day written in the first century is taken for a day after 1899. */
  lemma MakeDayOfEarly(d: Date)
    requires Valid(d) && d.year < 100
    ensures MakeDay(d.year, d.month, d.day) > Number(d)
  {
    var months := (1900 + d.year) * 12 + d.month - 1;
    assert months / 12 == 1900 + d.year && months % 12 + 1 == d.month;
    WithinYear(d);
    YearsIncrease(d.year + 1, 1900 + d.year);
    if d.month > 1 {
      MonthsIncrease(1900 + d.year, 1, d.month);
    }
  }

  /** The picker reads exactly the real days from year 100 on, as midnight UTC. */
  lemma {:induction false} ParseIsReal(value: string)
    ensures Parse(value) == if ReadDay(value).Some? && ReadDay(value).value.year >= 100 then Some(DayOf(value) * DAY) else None
  {
    hide MakeDay;
    if ReadDay(value).Some? {
      var d := ReadDay(value).value;
      if d.year >= 100 {
        MakeDayOfReal(d);
        DateOfNumber(d);
      } else {
        MakeDayOfEarly(d);
      }
    }
  }

  /** Nights are counted iff both days are real, from year 100 on, and in string order; the count is the calendar distance. */
  lemma {:induction false} NightCountIsDistance(checkIn: string, checkOut: string, nights: int)
    ensures NightCount(checkIn, checkOut) == Some(nights) <==>
            && ReadDay(checkIn).Some? && ReadDay(checkOut).Some?
            && ReadDay(checkIn).value.year >= 100 && ReadDay(checkOut).value.year >= 100
            && Less(checkIn, checkOut) && nights == NightsBetween(checkIn, checkOut)
  {
    hide ReadDay, Less, Parse;
    ParseIsReal(checkIn);
    ParseIsReal(checkOut);
    if ReadDay(checkIn).Some? && ReadDay(checkOut).Some? {
      DayOrder(checkIn, checkOut);
    }
  }

  // ----- the month grid

  /** The months whose whole grid lies in four-digit years that `Date.UTC` takes literally. */
  predicate GridMonth(year: nat, monthIndex: nat) {
    100 <= year <= 9999 && monthIndex <= 11 && (year == 9999 ==> monthIndex < 11)
  }

  datatype Cell = Cell(iso: string, inMonth: bool)

  function FirstOfMonth(year: nat, monthIndex: nat): int {
    MakeDay(year, monthIndex + 1, 1)
  }

  function Lead(year: nat, monthIndex: nat): nat {
    (UtcDay(FirstOfMonth(year, monthIndex)) + 6) % 7
  }

  /** `new Date(Date.UTC(year, monthIndex + 1, 0)).getUTCDate()`. */
  function MonthDays(year: nat, monthIndex: nat): int
    requires GridMonth(year, monthIndex)
  {
    LastOfMonth(year, monthIndex);
    DateOf(MakeDay(year, monthIndex + 2, 0)).day
  }

  function CellCount(year: nat, monthIndex: nat): nat
    requires GridMonth(year, monthIndex)
  {
    LastOfMonth(year, monthIndex);
    (Lead(year, monthIndex) + MonthDays(year, monthIndex) + 6) / 7 * 7
  }

  function GridCell(year: nat, monthIndex: nat, index: nat): Cell
    requires GridMonth(year, monthIndex) && index < CellCount(year, monthIndex)
  {
    CellInRange(year, monthIndex, index);
    var iso := TextOf(FirstOfMonth(year, monthIndex) + index - Lead(year, monthIndex));
    var parsed := Parse(iso);
    Cell(iso, parsed.Some? && FIRST_DAY <= parsed.value / DAY <= LAST_DAY && DateOf(parsed.value / DAY).month - 1 == monthIndex)
  }

  function MonthGrid(year: nat, monthIndex: nat): (grid: seq<Cell>)
    requires GridMonth(year, monthIndex)
  {
    seq(CellCount(year, monthIndex), index requires 0 <= index < CellCount(year, monthIndex) => GridCell(year, monthIndex, index))
  }

  lemma FirstIsTheFirst(year: nat, monthIndex: nat)
    requires GridMonth(year, monthIndex)
    ensures FirstOfMonth(year, monthIndex) == Number(Date(year, monthIndex + 1, 1))
  {
    MakeDayOfReal(Date(year, monthIndex + 1, 1));
  }

  /** The day before the first of the next month is the last of this one. */
  lemma {:induction false} LastOfMonth(year: nat, monthIndex: nat)
    requires GridMonth(year, monthIndex)
    ensures MakeDay(year, monthIndex + 2, 0) == Number(Date(year, monthIndex + 1, DaysInMonth(year, monthIndex + 1)))
    ensures FIRST_DAY <= MakeDay(year, monthIndex + 2, 0) <= LAST_DAY
    ensures DateOf(MakeDay(year, monthIndex + 2, 0)) == Date(year, monthIndex + 1, DaysInMonth(year, monthIndex + 1))
  {
    var last := Date(year, monthIndex + 1, DaysInMonth(year, monthIndex + 1));
    var months := year * 12 + monthIndex + 1;
    if monthIndex < 11 {
      assert months / 12 == year && months % 12 + 1 == monthIndex + 2;
    } else {
      assert months / 12 == year + 1 && months % 12 + 1 == 1;
      MonthsFillYear(year);
    }
    DateOfNumber(last);
  }

  lemma {:induction false} CellInRange(year: nat, monthIndex: nat, index: nat)
    requires GridMonth(year, monthIndex) && index < CellCount(year, monthIndex)
    ensures FIRST_DAY <= FirstOfMonth(year, monthIndex) + index - Lead(year, monthIndex) <= LAST_DAY
    ensures DayFromYear(100) - 7 <= FirstOfMonth(year, monthIndex) + index - Lead(year, monthIndex)
  {
    var first := Date(year, monthIndex + 1, 1);
    FirstIsTheFirst(year, monthIndex);
    LastOfMonth(year, monthIndex);
    WithinYear(first);
    YearsIncrease(100, year);
    YearsIncrease(0, 100);
    YearsIncrease(year + 1, if year == 9999 then year + 1 else 9999);
    LastYear(year);
    RoomAfter(year, monthIndex);
  }

  /** At least a week of four-digit days follows the month. */
  lemma {:induction false} RoomAfter(year: nat, monthIndex: nat)
    requires GridMonth(year, monthIndex)
    ensures Number(Date(year, monthIndex + 1, DaysInMonth(year, monthIndex + 1))) + 7 <= LAST_DAY
  {
    hide DaysInMonth, DayFromYear;
    if monthIndex < 11 {
      InRange(Date(year, monthIndex + 2, 8));
    } else {
      NewYear(year);
      InRange(Date(year + 1, 1, 8));
    }
  }

  lemma NewYear(year: nat)
    ensures Number(Date(year + 1, 1, 1)) == Number(Date(year, 12, DaysInMonth(year, 12))) + 1
  {
    MonthsFillYear(year);
  }

  /** Within the weeks around a month, only its own days have its month index. */
  lemma {:induction false} SameMonthNearby(n: int, year: nat, month: nat)
    requires FIRST_DAY <= n <= LAST_DAY && 0 <= year <= 9999 && 1 <= month <= 12
    requires Number(Date(year, month, 1)) - 7 < n < Number(Date(year, month, 1)) + 38
    ensures DateOf(n).month == month <==> Number(Date(year, month, 1)) <= n < Number(Date(year, month, 1)) + DaysInMonth(year, month)
  {
    var first, last := Date(year, month, 1), Date(year, month, DaysInMonth(year, month));
    var d := DateOf(n);
    MonthsIncrease(year, month, 13);
    MonthsFillYear(year);
    WithinYear(first);
    WithinYear(d);
    if d.month == month {
      if d.year < year {
        MonthsIncrease(d.year, d.month, 13);
        OtherYear(d.year, year, month);
      } else if year < d.year {
        OtherYear(year, d.year, month);
      }
    } else {
      NumberOrders(d, first);
      NumberOrders(last, d);
    }
  }

  /** The same month of another year starts at least 365 days away. */
  lemma {:induction false} OtherYear(early: nat, late: nat, month: nat)
    requires early < late && 1 <= month <= 12
    ensures Number(Date(early, month, 1)) + 365 <= Number(Date(late, month, 1))
  {
    YearsIncrease(early + 1, late);
    if month == 1 {
    } else if month == 2 {
      assert MonthStart(early, 2) == MonthStart(late, 2) == 31;
    } else {
      StartsDiffer(early, late, month);
    }
  }

  lemma {:induction false} StartsDiffer(early: nat, late: nat, month: nat)
    requires 3 <= month <= 12
    ensures MonthStart(early, month) - DaysInMonth(early, 2) == MonthStart(late, month) - DaysInMonth(late, 2)
  {
    if month == 3 {
      assert MonthStart(early, 2) == MonthStart(late, 2) == 31;
    } else {
      StartsDiffer(early, late, month - 1);
    }
  }

  lemma RoundUpToWeeks(n: nat)
    ensures (n + 6) / 7 * 7 % 7 == 0 && n <= (n + 6) / 7 * 7 < n + 7
  {
  }

  lemma {:induction false} WholeWeeks(year: nat, monthIndex: nat)
    requires GridMonth(year, monthIndex)
    ensures var lead, days, cells := Lead(year, monthIndex), DaysInMonth(year, monthIndex + 1), CellCount(year, monthIndex);
            cells % 7 == 0 && lead < 7 && lead + days <= cells < lead + days + 7
  {
    hide MakeDay, DaysInMonth, UtcDay, DateOf, GridMonth;
    LastOfMonth(year, monthIndex);
    RoundUpToWeeks(Lead(year, monthIndex) + DaysInMonth(year, monthIndex + 1));
  }

  lemma {:induction false} GridDay(year: nat, monthIndex: nat, i: nat)
    requires GridMonth(year, monthIndex) && i < CellCount(year, monthIndex)
    ensures var n := Number(Date(year, monthIndex + 1, 1)) - Lead(year, monthIndex) + i;
            && FIRST_DAY <= n <= LAST_DAY
            && GridCell(year, monthIndex, i).iso == TextOf(n)
            && ReadDay(TextOf(n)) == Some(DateOf(n)) && DayOf(TextOf(n)) == n
            && MondayIndex(n) == i % 7
  {
    hide MakeDay, TextOf, Parse, ReadDay, DayOf, Number, CellCount;
    FirstIsTheFirst(year, monthIndex);
    CellInRange(year, monthIndex, i);
    TextOfDay(FirstOfMonth(year, monthIndex) + i - Lead(year, monthIndex));
    GridWeekday(FirstOfMonth(year, monthIndex), i);
  }

  lemma GridWeekday(first: int, i: nat)
    ensures MondayIndex(first - (UtcDay(first) + 6) % 7 + i) == i % 7
  {
  }

  lemma DayInMonth(year: nat, month: nat, day: nat)
    requires 0 <= year <= 9999 && 1 <= month <= 12 && 1 <= day <= DaysInMonth(year, month)
    ensures var n := Number(Date(year, month, 1)) + day - 1;
            FIRST_DAY <= n <= LAST_DAY && DateOf(n) == Date(year, month, day)
  {
    DateOfNumber(Date(year, month, day));
  }

  lemma {:induction false} CellMonth(year: nat, monthIndex: nat, i: nat)
    requires GridMonth(year, monthIndex) && i < CellCount(year, monthIndex)
    ensures GridCell(year, monthIndex, i).inMonth
       <==> Lead(year, monthIndex) <= i < Lead(year, monthIndex) + DaysInMonth(year, monthIndex + 1)
  {
    hide MakeDay, TextOf, Parse, ReadDay, DayOf, DaysInMonth, CellCount, DateOf, Lead, Number, FirstOfMonth;
    var n := FirstOfMonth(year, monthIndex) + i - Lead(year, monthIndex);
    FirstIsTheFirst(year, monthIndex);
    WholeWeeks(year, monthIndex);
    CellInRange(year, monthIndex, i);
    TextOfDay(n);
    ParseIsReal(TextOf(n));
    AtMost31(year, monthIndex + 1);
    SameMonthNearby(n, year, monthIndex + 1);
    if DateOf(n).year < 100 {
      EarlyCell(n, year, monthIndex);
    }
  }

  lemma AtMost31(year: nat, month: nat)
    requires 1 <= month <= 12
    ensures DaysInMonth(year, month) <= 31
  {
  }

  /** A grid day before year 100 lies before the month. */
  lemma EarlyCell(n: int, year: nat, monthIndex: nat)
    requires GridMonth(year, monthIndex) && FIRST_DAY <= n <= LAST_DAY && DateOf(n).year < 100
    ensures n < Number(Date(year, monthIndex + 1, 1))
  {
    NumberOrders(DateOf(n), Date(year, monthIndex + 1, 1));
  }

  /**
   * The grid is a whole number of Monday-first weeks of consecutive days, no more than needed, and its in-month cells
   * are exactly the days of the month, in order.
   */
  lemma {:induction false} MonthGridIsTheMonth(year: nat, monthIndex: nat, i: nat)
    requires GridMonth(year, monthIndex) && i < |MonthGrid(year, monthIndex)|
    ensures var grid, lead, days := MonthGrid(year, monthIndex), Lead(year, monthIndex), DaysInMonth(year, monthIndex + 1);
            && |grid| % 7 == 0 && lead < 7 && lead + days <= |grid| < lead + days + 7
            && ReadDay(grid[i].iso).Some?
            && DayOf(grid[i].iso) == Number(Date(year, monthIndex + 1, 1)) - lead + i
            && MondayIndex(DayOf(grid[i].iso)) == i % 7
            && (grid[i].inMonth <==> lead <= i < lead + days)
            && (grid[i].inMonth ==> ReadDay(grid[i].iso) == Some(Date(year, monthIndex + 1, i - lead + 1)))
  {
    hide MakeDay, ReadDay, TextOf, DayOf, DaysInMonth, Lead, CellCount, GridCell, DateOf, MondayIndex;
    WholeWeeks(year, monthIndex);
    GridDay(year, monthIndex, i);
    CellMonth(year, monthIndex, i);
    if GridCell(year, monthIndex, i).inMonth {
      DayInMonth(year, monthIndex + 1, i - Lead(year, monthIndex) + 1);
    }
  }

  // ----- picking a stay

  datatype Stay = Stay(checkIn: string, checkOut: string)

  datatype Selecting = CheckIn | CheckOut

  const MAX_NIGHTS := 30

  /** `applyStayPick`; `today` is the business day. The time value 0 counts as unreadable. */
  function ApplyStayPick(stay: Stay, picked: string, selecting: Selecting, today: string): Option<(Stay, Selecting)> {
    if Parse(picked).None? || Parse(picked) == Some(0) || Less(picked, today) then None
    else if selecting == CheckIn then Some((stay.(checkIn := picked), CheckOut))
    else
      var nights := NightCount(stay.checkIn, picked);
      if nights.None? || nights.value > MAX_NIGHTS then None else Some((stay.(checkOut := picked), CheckIn))
  }

  /** A day from year 100 on, other than 1 January 1970, that is not before today. */
  predicate Pickable(picked: string, today: string) {
    ReadDay(picked).Some? && ReadDay(picked).value.year >= 100 && DayOf(picked) != 0 && !Less(picked, today)
  }

  /**
   * A check-out is taken exactly when it is pickable and makes a stay of 1 to 30 real nights from the chosen check-in; a check-in exactly
   * when it is pickable. Only the picked end of the stay changes.
   */
  lemma {:induction false} PickIsTakenIff(stay: Stay, picked: string, selecting: Selecting, today: string)
    ensures var taken := ApplyStayPick(stay, picked, selecting, today);
            && (taken.Some? <==>
                  && Pickable(picked, today)
                  && (selecting == CheckOut ==>
                        && ReadDay(stay.checkIn).Some? && ReadDay(stay.checkIn).value.year >= 100
                        && 1 <= NightsBetween(stay.checkIn, picked) <= MAX_NIGHTS))
            && (taken.Some? ==> taken.value == if selecting == CheckIn then (Stay(picked, stay.checkOut), CheckOut) else (Stay(stay.checkIn, picked), CheckIn))
  {
    hide ReadDay, Less, Parse, NightCount;
    ParseIsReal(picked);
    if ReadDay(picked).Some? && ReadDay(stay.checkIn).Some? {
      NightCountIsDistance(stay.checkIn, picked, NightsBetween(stay.checkIn, picked));
      DayOrder(stay.checkIn, picked);
    }
    if NightCount(stay.checkIn, picked).Some? {
      NightCountIsDistance(stay.checkIn, picked, NightCount(stay.checkIn, picked).value);
    }
  }
}
