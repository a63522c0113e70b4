/** The hotel deal form. */
module Deals {
  // The terms of a deal from what was typed, and every reason they cannot be built. The number of fraction digits of a currency
  // is the parameter `digits`; weekdays are 0 to 6.

  import opened Calendar
  import opened Common
  import opened Sorting
  import opened Text
  import Money

  datatype Kind = PercentOff | EarlyBird | FlashSale | StayXPayY | SubsequentNights | EveryNthFree | FixedOff

  datatype Parameter = Percent | Amount | MinNights | StayPay | Nth | FromNight | MinLeadDays | BookWindowRequired

  datatype Scope = PerNight | PerStay

  datatype WindowMode = WholeStay | NightsInWindow

  datatype DiscountBase = RoomAndGuests | RoomOnly

  datatype Draft = Draft(
    code: string, name: string, kind: Kind, priority: string,
    percent: string, amount: string, currency: string, amountScope: Scope,
    minNights: string, payNights: string, fromNight: string, minLeadDays: string,
    bookFrom: string, bookTo: string, stayFrom: string, stayTo: string,
    weekdays: seq<int>, stayWindowMode: WindowMode, discountBase: DiscountBase,
    combinable: bool, stackingGroup: string, incompatibleDealIds: string,
    channels: seq<string>, sourceMarkets: string, agencyIds: seq<string>,
    maxDiscountPercent: string, minSellFloor: string, minMarginPercent: string,
    activeFrom: string, activeTo: string,
    publicDescription: string, internalNotes: string,
    ratePlanIds: seq<string>)

  datatype Terms = Terms(
    code: string, name: string, kind: Kind, priority: nat,
    percentBp: Option<nat>, amountMinor: Option<string>, currency: Option<string>, amountScope: Option<Scope>,
    minNights: Option<nat>, freeNights: Option<nat>, fromNight: Option<nat>, minLeadDays: Option<nat>,
    bookFrom: Option<string>, bookTo: Option<string>, stayFrom: Option<string>, stayTo: Option<string>,
    weekdays: seq<int>, stayWindowMode: WindowMode, discountBase: DiscountBase,
    combinable: bool, stackingGroup: Option<string>, incompatibleDealIds: seq<string>,
    channels: seq<string>, sourceMarkets: seq<string>, agencyIds: seq<string>,
    maxDiscountBp: Option<nat>, minSellFloorMinor: Option<string>, minMarginBp: Option<nat>,
    activeFrom: Option<string>, activeTo: Option<string>,
    publicDescription: Option<string>, internalNotes: Option<string>,
    ratePlanIds: seq<string>)

  datatype DateField = BookFrom | BookTo | StayFrom | StayTo | ActiveFrom | ActiveTo

  datatype Problem =
    | BadPriority | BadPercent | BadAmount | BadMinNights | BadStayPay | BadNth | BadFromNight | BadLeadDays
    | NoBookingWindow | BadMaxDiscount | BadMinMargin | BadFloor | NeedsFloor
    | NotADate(field: DateField) | BookingEndsFirst | TravelEndsFirst | DealEndsFirst | NeedsTravelWindow
    | BadCode | BadName | BadMarkets | NoRatePlans

  const CHANNELS: seq<string> := ["PORTAL", "API"]

  /** Which parameters each kind shows, and therefore sends. */
  function KindFields(kind: Kind): set<Parameter> {
    match kind
    case PercentOff => {Percent, MinNights}
    case EarlyBird => {Percent, MinLeadDays, MinNights}
    case FlashSale => {Percent, BookWindowRequired, MinNights}
    case StayXPayY => {StayPay}
    case SubsequentNights => {Percent, FromNight, MinNights}
    case EveryNthFree => {Nth}
    case FixedOff => {Amount, MinNights}
  }

  predicate Has(kind: Kind, parameter: Parameter) {
    parameter in KindFields(kind)
  }

  // ----- reading one text

  /** `^\d{1,4}$` on the trimmed text. */
  function Whole(v: string): Option<nat> {
    if 1 <= |Trim(v)| <= 4 && AllDigits(Trim(v)) then Some(ValueOf(Trim(v))) else None
  }

  predicate Between(v: Option<nat>, low: nat, high: nat) {
    v.Some? && low <= v.value <= high
  }

  predicate IsSeparator(c: char) {
    IsSpace(c) || c == ',' || c == ';'
  }

  /** The parts between separators, empty ones included. */
  function Parts(s: string): (r: seq<string>)
    ensures |r| >= 1
  {
    if s == "" then [""]
    else
      var rest := Parts(s[1..]);
      if IsSeparator(s[0]) then [""] + rest else [[s[0]] + rest[0]] + rest[1..]
  }

  /** `list`: the words of a text. */
  function Words(s: string): seq<string> {
    Filter((w: string) => w != "", Parts(s))
  }

  function Nonzero(minor: Option<string>): Option<string> {
    if minor == Some("0") then None else minor
  }

  /** `value.trim() || null`. */
  function TextOrNone(s: string): Option<string> {
    if Trim(s) == "" then None else Some(Trim(s))
  }

  function DayOrNone(s: string): Option<string> {
    if s == "" then None else Some(s)
  }

  /** `^\d{4}-\d{2}-\d{2}$`. */
  predicate DayShape(s: string) {
    |s| == 10 && s[4] == '-' && s[7] == '-' && AllDigits(s[..4]) && AllDigits(s[5..7]) && AllDigits(s[8..])
  }

  predicate IsWordChar(c: char) {
    IsDigit(c) || 'a' <= c <= 'z' || 'A' <= c <= 'Z'
  }

  /** `^[A-Za-z0-9][A-Za-z0-9_-]{1,39}$`. */
  predicate IsCode(s: string) {
    2 <= |s| <= 40 && IsWordChar(s[0]) && forall i | 0 <= i < |s| :: IsWordChar(s[i]) || s[i] == '_' || s[i] == '-'
  }

  predicate IsMarket(s: string) {
    |s| == 2 && UpperLetters(s)
  }

  // ----- the values a draft stands for

  function PercentOf(d: Draft): Option<nat> {
    if Has(d.kind, Percent) then Money.PercentToBasisPoints(d.percent) else None
  }

  function AmountOf(d: Draft, digits: string -> nat): Option<string> {
    if Has(d.kind, Amount) then Nonzero(Money.ParseMajorToMinor(d.amount, digits(d.currency))) else None
  }

  /** Stay X, pay Y: X at least 2, Y at least 1 and below X. */
  predicate StayPayOk(d: Draft) {
    var stay, pay := Whole(d.minNights), Whole(d.payNights);
    stay.Some? && pay.Some? && stay.value >= 2 && 1 <= pay.value < stay.value
  }

  function MinNightsOf(d: Draft): Option<nat> {
    if Has(d.kind, StayPay) then if StayPayOk(d) then Whole(d.minNights) else None
    else if Has(d.kind, Nth) then Whole(d.minNights)
    else if Has(d.kind, MinNights) && Trim(d.minNights) != "" then Whole(d.minNights)
    else None
  }

  function FreeNightsOf(d: Draft): Option<nat> {
    if Has(d.kind, StayPay) && StayPayOk(d) then Some(Whole(d.minNights).value - Whole(d.payNights).value) else None
  }

  function OptionalPercent(v: string): Option<nat> {
    if Trim(v) != "" && Between(Money.PercentToBasisPoints(v), 1, 9000) then Money.PercentToBasisPoints(v) else None
  }

  function FloorOf(d: Draft, digits: string -> nat): Option<string> {
    if Trim(d.minSellFloor) == "" then None else Nonzero(Money.ParseMajorToMinor(d.minSellFloor, digits(d.currency)))
  }

  function DateOf(d: Draft, field: DateField): string {
    match field
    case BookFrom => d.bookFrom
    case BookTo => d.bookTo
    case StayFrom => d.stayFrom
    case StayTo => d.stayTo
    case ActiveFrom => d.activeFrom
    case ActiveTo => d.activeTo
  }

  predicate EndsFirst(start: string, end: string) {
    start != "" && end != "" && Less(end, start)
  }

  function Markets(d: Draft): seq<string> {
    Map(Upper, Words(d.sourceMarkets))
  }

  predicate AllMarkets(markets: seq<string>) {
    forall i | 0 <= i < |markets| :: IsMarket(markets[i])
  }

  function KnownChannels(channels: seq<string>): seq<string> {
    Filter((c: string) => c in CHANNELS, channels)
  }

  /** The draft has this fault. */
  predicate Wrong(p: Problem, d: Draft, digits: string -> nat) {
    match p
    case BadPriority => !Between(Whole(d.priority), 0, 100)
    case BadPercent => Has(d.kind, Percent) && !Between(PercentOf(d), 1, 9000)
    case BadAmount => Has(d.kind, Amount) && AmountOf(d, digits).None?
    case BadMinNights => Has(d.kind, MinNights) && Trim(d.minNights) != "" && !Between(Whole(d.minNights), 1, 365)
    case BadStayPay => Has(d.kind, StayPay) && !StayPayOk(d)
    case BadNth => Has(d.kind, Nth) && !Between(Whole(d.minNights), 2, 365)
    case BadFromNight => Has(d.kind, FromNight) && !Between(Whole(d.fromNight), 2, 365)
    case BadLeadDays => Has(d.kind, MinLeadDays) && !Between(Whole(d.minLeadDays), 1, 730)
    case NoBookingWindow => Has(d.kind, BookWindowRequired) && (d.bookFrom == "" || d.bookTo == "")
    case BadMaxDiscount => Trim(d.maxDiscountPercent) != "" && OptionalPercent(d.maxDiscountPercent).None?
    case BadMinMargin => Trim(d.minMarginPercent) != "" && OptionalPercent(d.minMarginPercent).None?
    case BadFloor => Trim(d.minSellFloor) != "" && FloorOf(d, digits).None?
    case NeedsFloor => PercentOf(d).Some? && PercentOf(d).value > 5000 && FloorOf(d, digits).None?
    case NotADate(field) => DateOf(d, field) != "" && !DayShape(DateOf(d, field))
    case BookingEndsFirst => EndsFirst(d.bookFrom, d.bookTo)
    case TravelEndsFirst => EndsFirst(d.stayFrom, d.stayTo)
    case DealEndsFirst => EndsFirst(d.activeFrom, d.activeTo)
    case NeedsTravelWindow => d.stayWindowMode == NightsInWindow && d.stayFrom == "" && d.stayTo == ""
    case BadCode => !IsCode(Trim(d.code))
    case BadName => |Trim(d.name)| < 1 || |Trim(d.name)| > 80
    case BadMarkets => !AllMarkets(Markets(d))
    case NoRatePlans => |d.ratePlanIds| == 0
  }

  ghost predicate Acceptable(d: Draft, digits: string -> nat) {
    forall p: Problem :: !Wrong(p, d, digits)
  }

  /** The terms of an acceptable draft. */
  function TermsOf(d: Draft, digits: string -> nat): Terms {
    Terms(
      Trim(d.code), Trim(d.name), d.kind, if Whole(d.priority).Some? then Whole(d.priority).value else 0,
      PercentOf(d), AmountOf(d, digits), if d.kind == FixedOff then Some(d.currency) else None, if d.kind == FixedOff then Some(d.amountScope) else None,
      MinNightsOf(d), FreeNightsOf(d),
      if Has(d.kind, FromNight) then Whole(d.fromNight) else None, if Has(d.kind, MinLeadDays) then Whole(d.minLeadDays) else None,
      DayOrNone(d.bookFrom), DayOrNone(d.bookTo), DayOrNone(d.stayFrom), DayOrNone(d.stayTo),
      Sort(d.weekdays), d.stayWindowMode, d.discountBase,
      d.combinable, TextOrNone(d.stackingGroup), Words(d.incompatibleDealIds),
      KnownChannels(d.channels), Markets(d), d.agencyIds,
      OptionalPercent(d.maxDiscountPercent), FloorOf(d, digits), OptionalPercent(d.minMarginPercent),
      DayOrNone(d.activeFrom), DayOrNone(d.activeTo),
      TextOrNone(d.publicDescription), TextOrNone(d.internalNotes),
      d.ratePlanIds)
  }

  // ----- the builder

  /** The order in which the checks are made, in four stretches. */
  function Stretch(p: Problem): nat {
    match p
    case BadPriority => 0 case BadPercent => 0 case BadAmount => 0
    case BadMinNights => 1 case BadStayPay => 1 case BadNth => 1 case BadFromNight => 1 case BadLeadDays => 1 case NoBookingWindow => 1
    case BadMaxDiscount => 2 case BadMinMargin => 2 case BadFloor => 2 case NeedsFloor => 2
    case BadCode => 4 case BadName => 4 case BadMarkets => 4 case NoRatePlans => 4
    case _ => 3
  }

  ghost predicate Reports(problems: seq<Problem>, stretch: nat, d: Draft, digits: string -> nat) {
    forall p: Problem :: p in problems <==> Stretch(p) == stretch && Wrong(p, d, digits)
  }

  method CheckDiscount(d: Draft, digits: string -> nat) returns (problems: seq<Problem>, percentBp: Option<nat>, amountMinor: Option<string>)
    ensures Reports(problems, 0, d, digits)
    ensures percentBp == PercentOf(d) && amountMinor == AmountOf(d, digits)
  {
    hide Whole, Money.PercentToBasisPoints, Money.ParseMajorToMinor, Has;
    problems := [];
    if !Between(Whole(d.priority), 0, 100) {
      problems := problems + [BadPriority];
    }
    percentBp := if Has(d.kind, Percent) then Money.PercentToBasisPoints(d.percent) else None;
    if Has(d.kind, Percent) && !Between(percentBp, 1, 9000) {
      problems := problems + [BadPercent];
    }
    amountMinor := None;
    if Has(d.kind, Amount) {
      amountMinor := Money.ParseMajorToMinor(d.amount, digits(d.currency));
      if amountMinor.None? || amountMinor == Some("0") {
        problems := problems + [BadAmount];
        amountMinor := None;
      }
    }
  }

  lemma NightsFaults(d: Draft, digits: string -> nat)
    ensures Wrong(BadMinNights, d, digits) <==> Has(d.kind, MinNights) && Trim(d.minNights) != "" && !Between(Whole(d.minNights), 1, 365)
    ensures Wrong(BadStayPay, d, digits) <==> Has(d.kind, StayPay) && !StayPayOk(d)
    ensures Wrong(BadNth, d, digits) <==> Has(d.kind, Nth) && !Between(Whole(d.minNights), 2, 365)
    ensures Wrong(BadFromNight, d, digits) <==> Has(d.kind, FromNight) && !Between(Whole(d.fromNight), 2, 365)
    ensures Wrong(BadLeadDays, d, digits) <==> Has(d.kind, MinLeadDays) && !Between(Whole(d.minLeadDays), 1, 730)
    ensures Wrong(NoBookingWindow, d, digits) <==> Has(d.kind, BookWindowRequired) && (d.bookFrom == "" || d.bookTo == "")
  {
    hide Has, Trim, Whole, Between, StayPayOk;
  }

  method CheckNights(d: Draft, digits: string -> nat) returns (problems: seq<Problem>, minNights: Option<nat>, freeNights: Option<nat>)
    ensures Reports(problems, 1, d, digits)
    ensures minNights == MinNightsOf(d) && freeNights == FreeNightsOf(d)
  {
    hide Whole, Trim, Wrong;
    NightsFaults(d, digits);
    problems, minNights, freeNights := [], None, None;
    if Has(d.kind, MinNights) && Trim(d.minNights) != "" {
      minNights := Whole(d.minNights);
      if !Between(minNights, 1, 365) {
        problems := problems + [BadMinNights];
      }
    }
    if Has(d.kind, StayPay) {
      var stay, pay := Whole(d.minNights), Whole(d.payNights);
      if stay.None? || pay.None? || stay.value < 2 || pay.value < 1 || pay.value >= stay.value {
        problems := problems + [BadStayPay];
      } else {
        minNights, freeNights := stay, Some(stay.value - pay.value);
      }
    }
    if Has(d.kind, Nth) {
      minNights := Whole(d.minNights);
      if !Between(minNights, 2, 365) {
        problems := problems + [BadNth];
      }
    }
    if Has(d.kind, FromNight) && !Between(Whole(d.fromNight), 2, 365) {
      problems := problems + [BadFromNight];
    }
    if Has(d.kind, MinLeadDays) && !Between(Whole(d.minLeadDays), 1, 730) {
      problems := problems + [BadLeadDays];
    }
    if Has(d.kind, BookWindowRequired) && (d.bookFrom == "" || d.bookTo == "") {
      problems := problems + [NoBookingWindow];
    }
  }

  lemma GuardFaults(d: Draft, digits: string -> nat)
    ensures Wrong(BadMaxDiscount, d, digits) <==> Trim(d.maxDiscountPercent) != "" && OptionalPercent(d.maxDiscountPercent).None?
    ensures Wrong(BadMinMargin, d, digits) <==> Trim(d.minMarginPercent) != "" && OptionalPercent(d.minMarginPercent).None?
    ensures Wrong(BadFloor, d, digits) <==> Trim(d.minSellFloor) != "" && FloorOf(d, digits).None?
    ensures Wrong(NeedsFloor, d, digits) <==> PercentOf(d).Some? && PercentOf(d).value > 5000 && FloorOf(d, digits).None?
  {
    hide Trim, OptionalPercent, FloorOf, PercentOf;
  }

  method CheckGuards(d: Draft, digits: string -> nat, percentBp: Option<nat>)
      returns (problems: seq<Problem>, maxDiscountBp: Option<nat>, minMarginBp: Option<nat>, floor: Option<string>)
    requires percentBp == PercentOf(d)
    ensures Reports(problems, 2, d, digits)
    ensures maxDiscountBp == OptionalPercent(d.maxDiscountPercent) && minMarginBp == OptionalPercent(d.minMarginPercent) && floor == FloorOf(d, digits)
  {
    hide Trim, Money.PercentToBasisPoints, Money.ParseMajorToMinor, Has, PercentOf, OptionalPercent, Wrong;
    GuardFaults(d, digits);
    problems := [];
    maxDiscountBp := OptionalPercent(d.maxDiscountPercent);
    if Trim(d.maxDiscountPercent) != "" && maxDiscountBp.None? {
      problems := problems + [BadMaxDiscount];
    }
    minMarginBp := OptionalPercent(d.minMarginPercent);
    if Trim(d.minMarginPercent) != "" && minMarginBp.None? {
      problems := problems + [BadMinMargin];
    }
    floor := None;
    if Trim(d.minSellFloor) != "" {
      floor := Money.ParseMajorToMinor(d.minSellFloor, digits(d.currency));
      if floor.None? || floor == Some("0") {
        problems := problems + [BadFloor];
        floor := None;
      }
    }
    if percentBp.Some? && percentBp.value > 5000 && floor.None? {
      problems := problems + [NeedsFloor];
    }
  }

  method CheckShapes(d: Draft, digits: string -> nat) returns (problems: seq<Problem>)
    ensures forall p: Problem :: p in problems <==> p.NotADate? && Wrong(p, d, digits)
  {
    hide DayShape;
    problems := [];
    var fields := [BookFrom, BookTo, StayFrom, StayTo, ActiveFrom, ActiveTo];
    for i := 0 to |fields|
      invariant forall p: Problem :: p in problems <==> p.NotADate? && p.field in fields[..i] && Wrong(p, d, digits)
    {
      assert fields[..i + 1] == fields[..i] + [fields[i]];
      if DateOf(d, fields[i]) != "" && !DayShape(DateOf(d, fields[i])) {
        problems := problems + [NotADate(fields[i])];
      }
    }
    assert fields[..|fields|] == fields;
    EveryDateField(fields);
  }

  lemma DateFaults(d: Draft, digits: string -> nat)
    ensures Wrong(BookingEndsFirst, d, digits) <==> EndsFirst(d.bookFrom, d.bookTo)
    ensures Wrong(TravelEndsFirst, d, digits) <==> EndsFirst(d.stayFrom, d.stayTo)
    ensures Wrong(DealEndsFirst, d, digits) <==> EndsFirst(d.activeFrom, d.activeTo)
    ensures Wrong(NeedsTravelWindow, d, digits) <==> d.stayWindowMode == NightsInWindow && d.stayFrom == "" && d.stayTo == ""
  {
    hide EndsFirst;
  }

  method CheckDates(d: Draft, digits: string -> nat) returns (problems: seq<Problem>)
    ensures Reports(problems, 3, d, digits)
  {
    hide EndsFirst, Wrong;
    DateFaults(d, digits);
    problems := CheckShapes(d, digits);
    if EndsFirst(d.bookFrom, d.bookTo) {
      problems := problems + [BookingEndsFirst];
    }
    if EndsFirst(d.stayFrom, d.stayTo) {
      problems := problems + [TravelEndsFirst];
    }
    if EndsFirst(d.activeFrom, d.activeTo) {
      problems := problems + [DealEndsFirst];
    }
    if d.stayWindowMode == NightsInWindow && d.stayFrom == "" && d.stayTo == "" {
      problems := problems + [NeedsTravelWindow];
    }
  }

  lemma EveryDateField(fields: seq<DateField>)
    requires fields == [BookFrom, BookTo, StayFrom, StayTo, ActiveFrom, ActiveTo]
    ensures forall f: DateField :: f in fields
  {
    forall f: DateField
      ensures f in fields
    {
      match f
      case BookFrom => assert fields[0] == f;
      case BookTo => assert fields[1] == f;
      case StayFrom => assert fields[2] == f;
      case StayTo => assert fields[3] == f;
      case ActiveFrom => assert fields[4] == f;
      case ActiveTo => assert fields[5] == f;
    }
  }

  lemma TextFaults(d: Draft, digits: string -> nat)
    ensures Wrong(BadCode, d, digits) <==> !IsCode(Trim(d.code))
    ensures Wrong(BadName, d, digits) <==> |Trim(d.name)| < 1 || |Trim(d.name)| > 80
    ensures Wrong(BadMarkets, d, digits) <==> !AllMarkets(Markets(d))
    ensures Wrong(NoRatePlans, d, digits) <==> |d.ratePlanIds| == 0
  {
    hide IsCode, Trim, AllMarkets, Markets;
  }

  method CheckTexts(d: Draft, digits: string -> nat) returns (problems: seq<Problem>)
    ensures Reports(problems, 4, d, digits)
  {
    hide Trim, IsCode, Markets, IsMarket, Wrong;
    TextFaults(d, digits);
    problems := [];
    if !IsCode(Trim(d.code)) {
      problems := problems + [BadCode];
    }
    if |Trim(d.name)| < 1 || |Trim(d.name)| > 80 {
      problems := problems + [BadName];
    }
    var markets := Markets(d);
    if exists i :: 0 <= i < |markets| && !IsMarket(markets[i]) {
      problems := problems + [BadMarkets];
    }
    if |d.ratePlanIds| == 0 {
      problems := problems + [NoRatePlans];
    }
  }

  /** `buildTerms`: every fault is reported, and the terms are built exactly when there is none. */
  method BuildTerms(d: Draft, digits: string -> nat) returns (terms: Option<Terms>, problems: seq<Problem>)
    ensures forall p: Problem :: p in problems <==> Wrong(p, d, digits)
    ensures terms == if problems == [] then Some(TermsOf(d, digits)) else None
  {
    hide Wrong, Trim, Words, Whole, Markets, PercentOf, AmountOf, MinNightsOf, FreeNightsOf, OptionalPercent, FloorOf, Sort, KnownChannels, Has;
    var discount, percentBp, amountMinor := CheckDiscount(d, digits);
    var nights, minNights, freeNights := CheckNights(d, digits);
    var guards, maxDiscountBp, minMarginBp, floor := CheckGuards(d, digits, percentBp);
    var dates := CheckDates(d, digits);
    var texts := CheckTexts(d, digits);
    problems := discount + nights + guards + dates + texts;
    EveryStretch();
    if |problems| > 0 {
      return None, problems;
    }
    terms := Some(Terms(
      Trim(d.code), Trim(d.name), d.kind, if Whole(d.priority).Some? then Whole(d.priority).value else 0,
      percentBp, amountMinor, if d.kind == FixedOff then Some(d.currency) else None, if d.kind == FixedOff then Some(d.amountScope) else None,
      minNights, freeNights,
      if Has(d.kind, FromNight) then Whole(d.fromNight) else None, if Has(d.kind, MinLeadDays) then Whole(d.minLeadDays) else None,
      DayOrNone(d.bookFrom), DayOrNone(d.bookTo), DayOrNone(d.stayFrom), DayOrNone(d.stayTo),
      Sort(d.weekdays), d.stayWindowMode, d.discountBase,
      d.combinable, TextOrNone(d.stackingGroup), Words(d.incompatibleDealIds),
      KnownChannels(d.channels), Markets(d), d.agencyIds,
      maxDiscountBp, floor, minMarginBp,
      DayOrNone(d.activeFrom), DayOrNone(d.activeTo),
      TextOrNone(d.publicDescription), TextOrNone(d.internalNotes),
      d.ratePlanIds));
  }

  lemma EveryStretch()
    ensures forall p: Problem :: Stretch(p) <= 4
  {
  }
}
