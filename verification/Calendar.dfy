/**
 * Gregorian day arithmetic and ISO day texts: reading and printing a day, the number of a day counted from 1 January 1970, and
 * the closed form of that number in ECMA-262. The orders of texts and of days are related, and the dates of a stay.
 */
module Calendar {
  // ECMA-262 section 21.4.1 for UTC time values, on the four-digit years, and the texts `YYYY-MM-DD` that the application
  // compares as strings.

  import opened Common
  import opened Text

  datatype Date = Date(year: int, month: int, day: int)

  predicate IsLeap(year: int) {
    year % 4 == 0 && (year % 100 != 0 || year % 400 == 0)
  }

  function DaysInYear(year: int): int {
    if IsLeap(year) then 366 else 365
  }

  function DaysInMonth(year: int, month: int): (n: int)
    requires 1 <= month <= 12
    ensures 28 <= n <= 31
  {
    if month == 2 then (if IsLeap(year) then 29 else 28)
    else if month in {4, 6, 9, 11} then 30
    else 31
  }

  /** Days before the first of a month, within its year. */
  function MonthStart(year: int, month: int): int
    requires 1 <= month <= 13
  {
    if month == 1 then 0 else MonthStart(year, month - 1) + DaysInMonth(year, month - 1)
  }

  /** The day number of 1 January, counted up from 1 January of year 0. */
  function DayFromYear(year: nat): int {
    if year == 0 then -719528 else DayFromYear(year - 1) + DaysInYear(year - 1)
  }

  predicate ValidMonth(year: int, month: int) {
    0 <= year <= 9999 && 1 <= month <= 12
  }

  predicate Valid(d: Date) {
    && ValidMonth(d.year, d.month)
    && 1 <= d.day <= DaysInMonth(d.year, d.month)
  }

  /** Days since 1 January 1970. */
  function Number(d: Date): int
    requires d.year >= 0 && 1 <= d.month <= 12
  {
    DayFromYear(d.year) + MonthStart(d.year, d.month) + d.day - 1
  }

  /** The numbers of 0000-01-01 and 9999-12-31. */
  const FIRST_DAY: int := -719528
  const LAST_DAY: int := 2932896

  /** The calendar's own successor, with month and year carries. */
  function Next(d: Date): Date
    requires Valid(d)
  {
    if d.day < DaysInMonth(d.year, d.month) then d.(day := d.day + 1)
    else if d.month < 12 then Date(d.year, d.month + 1, 1)
    else Date(d.year + 1, 1, 1)
  }

  lemma FloorBy4(year: int)
    ensures (year - 1969) / 4 == (year - 1970) / 4 + if (year - 1) % 4 == 0 then 1 else 0
  {
  }

  lemma FloorBy100(year: int)
    ensures (year - 1901) / 100 == (year - 1902) / 100 + if (year - 1) % 100 == 0 then 1 else 0
  {
  }

  lemma FloorBy400(year: int)
    ensures (year - 1601) / 400 == (year - 1602) / 400 + if (year - 1) % 400 == 0 then 1 else 0
  {
  }

  lemma CenturiesAreFourths(year: int)
    ensures year % 100 == 0 ==> year % 4 == 0
    ensures year % 400 == 0 ==> year % 100 == 0
  {
  }

  lemma LeapCount(year: int)
    ensures DaysInYear(year) == 365 + (if year % 4 == 0 then 1 else 0) - (if year % 100 == 0 then 1 else 0) + (if year % 400 == 0 then 1 else 0)
  {
    CenturiesAreFourths(year);
  }

  /** The closed form of `DayFromYear` in ECMA-262 section 21.4.1.3. */
  lemma {:induction false} EcmaDayFromYear(year: nat)
    ensures DayFromYear(year) == 365 * (year - 1970) + (year - 1969) / 4 - (year - 1901) / 100 + (year - 1601) / 400
  {
    hide IsLeap, DaysInYear;
    if year != 0 {
      EcmaDayFromYear(year - 1);
      LeapCount(year - 1);
      FloorBy4(year);
      FloorBy100(year);
      FloorBy400(year);
    }
  }

  lemma MonthsFillYear(year: int)
    ensures MonthStart(year, 13) == DaysInYear(year)
  {
    assert MonthStart(year, 2) == 31;
    assert MonthStart(year, 3) == 31 + DaysInMonth(year, 2);
    assert MonthStart(year, 5) == MonthStart(year, 3) + 31 + 30;
    assert MonthStart(year, 7) == MonthStart(year, 5) + 31 + 30;
    assert MonthStart(year, 9) == MonthStart(year, 7) + 31 + 31;
    assert MonthStart(year, 11) == MonthStart(year, 9) + 30 + 31;
    assert MonthStart(year, 13) == MonthStart(year, 11) + 30 + 31;
  }

  /** Consecutive calendar days have consecutive numbers, over month ends, leap days and year ends. */
  lemma NextIsSuccessor(d: Date)
    requires Valid(d)
    ensures Number(Next(d)) == Number(d) + 1
  {
    if d.day == DaysInMonth(d.year, d.month) && d.month == 12 {
      MonthsFillYear(d.year);
    }
  }

  predicate Before(a: Date, b: Date) {
    || a.year < b.year
    || (a.year == b.year && (a.month < b.month || (a.month == b.month && a.day < b.day)))
  }

  lemma {:induction false} YearsIncrease(a: nat, b: nat)
    requires a <= b
    ensures DayFromYear(a) + 365 * (b - a) <= DayFromYear(b)
    decreases b - a
  {
    if a < b {
      YearsIncrease(a, b - 1);
    }
  }

  lemma {:induction false} MonthsIncrease(year: int, a: int, b: int)
    requires 1 <= a < b <= 13
    ensures MonthStart(year, a) + DaysInMonth(year, a) <= MonthStart(year, b)
    decreases b
  {
    if a < b - 1 {
      MonthsIncrease(year, a, b - 1);
    }
  }

  lemma WithinYear(d: Date)
    requires Valid(d)
    ensures DayFromYear(d.year) <= Number(d) < DayFromYear(d.year + 1)
    ensures MonthStart(d.year, d.month) >= 0
  {
    MonthsFillYear(d.year);
    MonthsIncrease(d.year, d.month, 13);
    if d.month > 1 {
      MonthsIncrease(d.year, 1, d.month);
    }
  }

  lemma BeforeIsSmaller(a: Date, b: Date)
    requires Valid(a) && Valid(b) && Before(a, b)
    ensures Number(a) < Number(b)
  {
    if a.year < b.year {
      WithinYear(a);
      WithinYear(b);
      YearsIncrease(a.year + 1, b.year);
    } else if a.month < b.month {
      MonthsIncrease(a.year, a.month, b.month);
    }
  }

  /** Calendar order is number order, so different days have different numbers. */
  lemma NumberOrders(a: Date, b: Date)
    requires Valid(a) && Valid(b)
    ensures Before(a, b) <==> Number(a) < Number(b)
    ensures a == b <==> Number(a) == Number(b)
  {
    if Before(a, b) {
      BeforeIsSmaller(a, b);
    } else if a != b {
      BeforeIsSmaller(b, a);
    }
  }

  // ----- from a day number back to the calendar

  /** A year that starts no later than the last day is a four-digit year, and the last day ends year 9999. */
  lemma LastYear(year: nat)
    ensures DayFromYear(year) <= LAST_DAY <==> year <= 9999
    ensures year <= 9999 ==> DayFromYear(year + 1) <= LAST_DAY + 1
  {
    EcmaDayFromYear(year);
    EcmaDayFromYear(year + 1);
  }

  lemma InRange(d: Date)
    requires Valid(d)
    ensures FIRST_DAY <= Number(d) <= LAST_DAY
  {
    WithinYear(d);
    YearsIncrease(0, d.year);
    LastYear(d.year);
  }

  function YearOf(n: int, from: nat): (year: nat)
    requires DayFromYear(from) <= n
    ensures from <= year && DayFromYear(year) <= n < DayFromYear(year + 1)
    decreases n - DayFromYear(from)
  {
    if n < DayFromYear(from + 1) then from else YearOf(n, from + 1)
  }

  function MonthOf(year: int, offset: int, from: int): (month: int)
    requires 1 <= from <= 12 && MonthStart(year, from) <= offset < MonthStart(year, 13)
    ensures from <= month <= 12 && MonthStart(year, month) <= offset < MonthStart(year, month + 1)
    decreases 12 - from
  {
    if offset < MonthStart(year, from + 1) then from else MonthOf(year, offset, from + 1)
  }

  /** `new Date(n * 86400000)` as a UTC calendar day. */
  function DateOf(n: int): (d: Date)
    requires FIRST_DAY <= n <= LAST_DAY
    ensures Valid(d) && Number(d) == n
  {
    var year := YearOf(n, 0);
    MonthsFillYear(year);
    LastYear(year);
    var offset := n - DayFromYear(year);
    var month := MonthOf(year, offset, 1);
    Date(year, month, offset - MonthStart(year, month) + 1)
  }

  lemma DateOfNumber(d: Date)
    requires Valid(d)
    ensures FIRST_DAY <= Number(d) <= LAST_DAY
    ensures DateOf(Number(d)) == d
  {
    InRange(d);
    NumberOrders(d, DateOf(Number(d)));
  }

  // ----- ISO day texts

  function Padded(n: nat, width: nat): string {
    PadStart(NatText(n), width)
  }

  lemma {:induction false} PaddedValue(n: nat, width: nat)
    requires width > 0 && n < Scale(1, width)
    ensures |Padded(n, width)| == width && AllDigits(Padded(n, width)) && ValueOf(Padded(n, width)) == n
  {
    NatTextLength(n, width);
    ValueOfPadStart(NatText(n), width);
    ValueOfNatText(n);
  }

  /** `toISOString().slice(0, 10)`. */
  function Iso(d: Date): string
    requires Valid(d)
  {
    Padded(d.year, 4) + "-" + Padded(d.month, 2) + "-" + Padded(d.day, 2)
  }

  /** `^\d{4}-\d{2}-\d{2}$`. */
  predicate IsDayText(s: string) {
    && |s| == 10 && s[4] == '-' && s[7] == '-'
    && AllDigits(s[0..4]) && AllDigits(s[5..7]) && AllDigits(s[8..10])
  }

  /** The real day that a text denotes, if it denotes one. */
  function ReadDay(s: string): (r: Option<Date>)
    ensures r.Some? ==> Valid(r.value)
  {
    if !IsDayText(s) then None
    else
      var d := Date(ValueOf(s[0..4]), ValueOf(s[5..7]), ValueOf(s[8..10]));
      if Valid(d) then Some(d) else None
  }

  lemma Widths()
    ensures Scale(1, 2) == 100 && Scale(1, 4) == 10_000
  {
    assert Scale(1, 2) == 10 * Scale(1, 1) == 100;
    assert Scale(1, 4) == 10 * Scale(1, 3) == 100 * Scale(1, 2);
  }

  lemma {:induction false} PartsOfJoined(year: string, month: string, day: string)
    requires |year| == 4 && |month| == 2 && |day| == 2
    ensures var s := year + "-" + month + "-" + day;
            && |s| == 10 && s[4] == '-' && s[7] == '-'
            && s[0..4] == year && s[5..7] == month && s[8..10] == day
  {
  }

  lemma {:induction false} IsoParts(d: Date)
    requires Valid(d)
    ensures var s := Iso(d);
            && |s| == 10 && s[4] == '-' && s[7] == '-'
            && s[0..4] == Padded(d.year, 4) && s[5..7] == Padded(d.month, 2) && s[8..10] == Padded(d.day, 2)
    ensures AllDigits(Padded(d.year, 4)) && ValueOf(Padded(d.year, 4)) == d.year
    ensures AllDigits(Padded(d.month, 2)) && ValueOf(Padded(d.month, 2)) == d.month
    ensures AllDigits(Padded(d.day, 2)) && ValueOf(Padded(d.day, 2)) == d.day
  {
    hide Padded, ValueOf, Scale;
    Widths();
    PaddedValue(d.year, 4);
    PaddedValue(d.month, 2);
    PaddedValue(d.day, 2);
    PartsOfJoined(Padded(d.year, 4), Padded(d.month, 2), Padded(d.day, 2));
  }

  lemma ReadIso(d: Date)
    requires Valid(d)
    ensures ReadDay(Iso(d)) == Some(d)
  {
    IsoParts(d);
  }

  lemma {:induction false} IsoOfRead(s: string)
    requires ReadDay(s).Some?
    ensures Iso(ReadDay(s).value) == s
  {
    hide Iso, Valid, ValueOf;
    var d := ReadDay(s).value;
    IsoParts(d);
    ValueInjective(s[0..4], Iso(d)[0..4]);
    ValueInjective(s[5..7], Iso(d)[5..7]);
    ValueInjective(s[8..10], Iso(d)[8..10]);
    assert s == s[0..4] + [s[4]] + s[5..7] + [s[7]] + s[8..10];
    assert Iso(d) == Iso(d)[0..4] + [Iso(d)[4]] + Iso(d)[5..7] + [Iso(d)[7]] + Iso(d)[8..10];
  }

  /** The source language's `<` on strings. */
  predicate Less(s: string, t: string) {
    if t == [] then false
    else if s == [] then true
    else if s[0] != t[0] then s[0] < t[0]
    else Less(s[1..], t[1..])
  }

  lemma {:induction false} LessIrreflexive(s: string)
    ensures !Less(s, s)
  {
    if s != [] {
      LessIrreflexive(s[1..]);
    }
  }

  lemma {:induction false} LessOfConcat(a: string, x: string, b: string, y: string)
    requires |a| == |b|
    ensures Less(a + x, b + y) <==> Less(a, b) || (a == b && Less(x, y))
  {
    if a == [] {
      assert a + x == x && b + y == y;
    } else {
      assert (a + x)[1..] == a[1..] + x && (b + y)[1..] == b[1..] + y;
      LessOfConcat(a[1..], x, b[1..], y);
      assert a == [a[0]] + a[1..] && b == [b[0]] + b[1..];
    }
  }

  /** On digit strings of one width, string order is number order. */
  lemma {:induction false} LessOfDigits(s: string, t: string)
    requires AllDigits(s) && AllDigits(t) && |s| == |t|
    ensures Less(s, t) <==> ValueOf(s) < ValueOf(t)
  {
    if s != [] {
      var i := |s| - 1;
      LessOfDigits(s[..i], t[..i]);
      LessOfConcat(s[..i], [s[i]], t[..i], [t[i]]);
      assert s == s[..i] + [s[i]] && t == t[..i] + [t[i]];
      if s[..i] != t[..i] && ValueOf(s[..i]) == ValueOf(t[..i]) {
        ValueInjective(s[..i], t[..i]);
      }
      assert Less([s[i]], [t[i]]) <==> s[i] < t[i];
    }
  }

  lemma {:induction false} LessOfPadded(m: nat, n: nat, width: nat)
    requires width > 0 && m < Scale(1, width) && n < Scale(1, width)
    ensures Less(Padded(m, width), Padded(n, width)) <==> m < n
    ensures Padded(m, width) == Padded(n, width) <==> m == n
  {
    PaddedValue(m, width);
    PaddedValue(n, width);
    LessOfDigits(Padded(m, width), Padded(n, width));
  }

  lemma {:induction false} LessOfThreeParts(a: string, b: string, c: string, x: string, y: string, z: string)
    requires |a| == |x| && |b| == |y|
    ensures Less(a + "-" + b + "-" + c, x + "-" + y + "-" + z) <==> Less(a, x) || (a == x && (Less(b, y) || (b == y && Less(c, z))))
  {
    var left, right := a + "-" + b + "-" + c, x + "-" + y + "-" + z;
    assert left == a + ("-" + (b + ("-" + c)));
    assert right == x + ("-" + (y + ("-" + z)));
    LessOfConcat(a, "-" + (b + ("-" + c)), x, "-" + (y + ("-" + z)));
    LessOfConcat("-", b + ("-" + c), "-", y + ("-" + z));
    LessOfConcat(b, "-" + c, y, "-" + z);
    LessOfConcat("-", c, "-", z);
    LessIrreflexive("-");
  }

  lemma {:induction false} IsoBefore(a: Date, b: Date)
    requires Valid(a) && Valid(b)
    ensures Less(Iso(a), Iso(b)) <==> Before(a, b)
  {
    Widths();
    PaddedValue(a.year, 4);
    PaddedValue(b.year, 4);
    PaddedValue(a.month, 2);
    PaddedValue(b.month, 2);
    LessOfThreeParts(Padded(a.year, 4), Padded(a.month, 2), Padded(a.day, 2), Padded(b.year, 4), Padded(b.month, 2), Padded(b.day, 2));
    LessOfPadded(a.year, b.year, 4);
    LessOfPadded(a.month, b.month, 2);
    LessOfPadded(a.day, b.day, 2);
  }

  /** ISO texts compare as strings exactly as their days do in time. */
  lemma IsoOrder(a: Date, b: Date)
    requires Valid(a) && Valid(b)
    ensures Less(Iso(a), Iso(b)) <==> Number(a) < Number(b)
    ensures Iso(a) == Iso(b) <==> a == b
  {
    IsoBefore(a, b);
    NumberOrders(a, b);
    ReadIso(a);
    ReadIso(b);
  }

  /** The same for any two texts of real days. */
  lemma DayTextOrder(s: string, t: string)
    requires ReadDay(s).Some? && ReadDay(t).Some?
    ensures Less(s, t) <==> Number(ReadDay(s).value) < Number(ReadDay(t).value)
    ensures s == t <==> Number(ReadDay(s).value) == Number(ReadDay(t).value)
  {
    IsoOfRead(s);
    IsoOfRead(t);
    IsoOrder(ReadDay(s).value, ReadDay(t).value);
    NumberOrders(ReadDay(s).value, ReadDay(t).value);
  }

  /** The day number of a text that is a real day. */
  function DayOf(s: string): (n: int)
    requires ReadDay(s).Some?
    ensures FIRST_DAY <= n <= LAST_DAY
  {
    InRange(ReadDay(s).value);
    Number(ReadDay(s).value)
  }

  /** The text of a day number. */
  function TextOf(n: int): (s: string)
    requires FIRST_DAY <= n <= LAST_DAY
  {
    Iso(DateOf(n))
  }

  lemma TextOfDay(n: int)
    requires FIRST_DAY <= n <= LAST_DAY
    ensures ReadDay(TextOf(n)) == Some(DateOf(n)) && DayOf(TextOf(n)) == n
  {
    ReadIso(DateOf(n));
  }

  lemma DayOfText(s: string)
    requires ReadDay(s).Some?
    ensures TextOf(DayOf(s)) == s
  {
    DateOfNumber(ReadDay(s).value);
    IsoOfRead(s);
  }

  /** For texts of real days, string order is day order. */
  lemma DayOrder(s: string, t: string)
    requires ReadDay(s).Some? && ReadDay(t).Some?
    ensures Less(s, t) <==> DayOf(s) < DayOf(t)
    ensures s == t <==> DayOf(s) == DayOf(t)
  {
    DayTextOrder(s, t);
  }

  /** Whole nights between two real days; negative when they are the wrong way round. */
  function NightsBetween(checkIn: string, checkOut: string): int
    requires ReadDay(checkIn).Some? && ReadDay(checkOut).Some?
  {
    DayOf(checkOut) - DayOf(checkIn)
  }

  // ----- weekdays and inclusive ranges

  const WEEKDAYS: seq<string> := ["MON", "TUE", "WED", "THU", "FRI", "SAT", "SUN"]

  /** `WeekDay(t)`, Sunday first. */
  function UtcDay(n: int): (w: nat)
    ensures w < 7
  {
    (n + 4) % 7
  }

  /** Monday first. */
  function MondayIndex(n: int): (w: nat)
    ensures w < 7
  {
    (UtcDay(n) + 6) % 7
  }

  const MAX_RANGE: nat := 62

  /** The text one day later: `new Date(Date.parse(cursor) + 86400000)`. */
  function NextDayText(s: string): string
    requires ReadDay(s).Some? && DayOf(s) < LAST_DAY
  {
    TextOf(DayOf(s) + 1)
  }

  lemma NextText(n: int)
    requires FIRST_DAY <= n < LAST_DAY
    ensures ReadDay(TextOf(n)).Some? && DayOf(TextOf(n)) == n
    ensures NextDayText(TextOf(n)) == TextOf(n + 1)
  {
    TextOfDay(n);
  }

  /** The texts of `count` consecutive days. */
  function DayTexts(first: int, count: nat): (r: seq<string>)
    requires FIRST_DAY <= first && first + count - 1 <= LAST_DAY
    ensures |r| == count
    ensures forall i | 0 <= i < count :: r[i] == TextOf(first + i)
  {
    if count == 0 then [] else DayTexts(first, count - 1) + [TextOf(first + count - 1)]
  }

  /** Malformed texts are allowed; impossible calendar days are not, because engines differ on them. */
  predicate NoImpossibleDay(s: string) {
    IsDayText(s) ==> ReadDay(s).Some?
  }

  function StayDates(from: string, to: string): Option<seq<string>>
    requires NoImpossibleDay(from) && NoImpossibleDay(to)
  {
    if IsDayText(from) && IsDayText(to) && 0 <= DayOf(to) - DayOf(from) < MAX_RANGE
    then Some(DayTexts(DayOf(from), DayOf(to) - DayOf(from) + 1))
    else None
  }

  /** `inclusiveStayDates`: every day from `from` to `to` in order, up to 62 days, and nothing otherwise. */
  method InclusiveStayDates(from: string, to: string) returns (r: Option<seq<string>>)
    requires NoImpossibleDay(from) && NoImpossibleDay(to)
    ensures r == StayDates(from, to)
  {
    hide IsDayText, ReadDay, TextOf, DayOf, Less, NextDayText, DateOf;
    if !IsDayText(from) || !IsDayText(to) {
      return None;
    }
    DayOrder(to, from);
    if Less(to, from) {
      return None;
    }
    DayOfText(from);
    DayOfText(to);
    var dates := [];
    var cursor := from;
    for i := 0 to MAX_RANGE
      invariant DayOf(from) + i <= DayOf(to)
      invariant cursor == TextOf(DayOf(from) + i)
      invariant dates == DayTexts(DayOf(from), i)
    {
      dates := dates + [cursor];
      TextOfDay(DayOf(from) + i);
      if cursor == to {
        return Some(dates);
      }
      NextText(DayOf(from) + i);
      cursor := NextDayText(cursor);
    }
    r := None;
  }

  lemma {:induction false} DayTextsMembers(first: int, count: nat, s: string)
    requires FIRST_DAY <= first && first + count - 1 <= LAST_DAY
    ensures s in DayTexts(first, count) <==> ReadDay(s).Some? && first <= DayOf(s) < first + count
  {
    hide ReadDay, TextOf, DayOf;
    if s in DayTexts(first, count) {
      var i :| 0 <= i < count && DayTexts(first, count)[i] == s;
      TextOfDay(first + i);
    }
    if ReadDay(s).Some? && first <= DayOf(s) < first + count {
      DayOfText(s);
      assert DayTexts(first, count)[DayOf(s) - first] == s;
    }
  }

  /** The range holds exactly the texts of the real days that compare between its ends, as strings. */
  lemma {:induction false} StayDatesAreTheRange(from: string, to: string, s: string)
    requires ReadDay(from).Some? && ReadDay(to).Some? && StayDates(from, to).Some?
    ensures s in StayDates(from, to).value <==> ReadDay(s).Some? && !Less(s, from) && !Less(to, s)
  {
    hide ReadDay, TextOf, DayOf, Less, IsDayText;
    DayTextsMembers(DayOf(from), DayOf(to) - DayOf(from) + 1, s);
    if ReadDay(s).Some? {
      DayOrder(s, from);
      DayOrder(to, s);
    }
  }

  /** The first and last texts are the ends, and each day is the calendar successor of the one before. */
  lemma {:induction false} StayDatesAreConsecutive(from: string, to: string, i: nat)
    requires ReadDay(from).Some? && ReadDay(to).Some? && StayDates(from, to).Some?
    requires i + 1 < |StayDates(from, to).value|
    ensures var dates := StayDates(from, to).value;
            && dates[0] == from && dates[|dates| - 1] == to
            && ReadDay(dates[i]).Some? && ReadDay(dates[i + 1]) == Some(Next(ReadDay(dates[i]).value))
  {
    hide ReadDay, TextOf, DayOf, IsDayText, Number, Next, Valid;
    DayOfText(from);
    DayOfText(to);
    TextOfDay(DayOf(from) + i);
    TextOfDay(DayOf(from) + i + 1);
    NextIsNextDay(DayOf(from) + i);
  }

  lemma NextIsNextDay(n: int)
    requires FIRST_DAY <= n < LAST_DAY
    ensures Next(DateOf(n)) == DateOf(n + 1)
  {
    NextIsSuccessor(DateOf(n));
    NextStaysValid(DateOf(n));
    DateOfNumber(Next(DateOf(n)));
  }

  lemma NextStaysValid(d: Date)
    requires Valid(d) && Number(d) < LAST_DAY
    ensures Valid(Next(d))
  {
    NextIsSuccessor(d);
    LastYear(d.year + 1);
  }
}
