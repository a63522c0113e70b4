/** What the service accepts of a deal that is sent to it, against what the deal form lets through. */
module DealApi {
  import opened Common
  import opened Deals
  import opened Sorting
  import opened Text
  import Calendar
  import Money
  import opened DealLaws

  const MAX_AMOUNT: nat := 1_000_000_000
  const MAX_NIGHTS: nat := 365
  const MAX_IDS: nat := 20
  const MAX_MARKETS: nat := 250
  const MAX_LISTED: nat := 100

  // ----- the rules of the service (`parseDealInput`)

  predicate InLimits(v: Option<nat>, low: nat, high: nat) {
    v.Some? ==> low <= v.value <= high
  }

  /** `^[A-Za-z0-9_-]{1,max}$`. */
  predicate IsLabel(s: string, max: nat) {
    1 <= |s| <= max && forall i | 0 <= i < |s| :: IsWordChar(s[i]) || s[i] == '_' || s[i] == '-'
  }

  /** An optional value that is missing when it is empty. */
  predicate Given(s: Option<string>) {
    s.Some? && s.value != ""
  }

  /** Minor units as `^[1-9]\d{0,15}$`, at most the largest amount. */
  predicate AmountTaken(m: Option<string>) {
    Given(m) ==> |m.value| <= 16 && AllDigits(m.value) && m.value[0] != '0' && ValueOf(m.value) <= MAX_AMOUNT
  }

  predicate DayTaken(day: Option<string>) {
    Given(day) ==> Calendar.ReadDay(day.value).Some?
  }

  predicate OrderTaken(start: Option<string>, end: Option<string>) {
    Given(start) && Given(end) ==> !Calendar.Less(end.value, start.value)
  }

  function Distincts(items: seq<string>): set<string> {
    if items == [] then {} else {Trim(items[0])} + Distincts(items[1..])
  }

  predicate LabelsTaken(items: seq<string>, max: nat) {
    (forall i | 0 <= i < |items| :: IsLabel(Trim(items[i]), 64)) && |Distincts(items)| <= max
  }

  predicate MarketsTaken(items: seq<string>) {
    (forall i | 0 <= i < |items| :: IsMarket(Trim(items[i]))) && |Distincts(items)| <= MAX_MARKETS
  }

  predicate ChannelsTaken(items: seq<string>) {
    (forall i | 0 <= i < |items| :: Trim(items[i]) in CHANNELS) && |Distincts(items)| <= 2
  }

  predicate TextTaken(s: Option<string>, max: nat) {
    s.Some? ==> |Trim(s.value)| <= max
  }

  predicate CurrencyTaken(currency: string, enabled: seq<string>) {
    Money.IsCurrencyCode(Upper(Trim(currency))) && Upper(Trim(currency)) in enabled
  }

  predicate NumbersTaken(t: Terms) {
    && t.priority <= 100 && InLimits(t.percentBp, 1, 9000)
    && InLimits(t.minNights, 1, MAX_NIGHTS) && InLimits(t.freeNights, 1, MAX_NIGHTS - 1)
    && InLimits(t.fromNight, 2, 365) && InLimits(t.minLeadDays, 1, 730)
    && InLimits(t.maxDiscountBp, 1, 9000) && InLimits(t.minMarginBp, 1, 9000)
    && (t.percentBp.Some? && t.percentBp.value > 5000 ==> Given(t.minSellFloorMinor))
  }

  /** Each kind has its own parameters and no other. */
  predicate KindTaken(t: Terms) {
    && (t.percentBp.Some? <==> t.kind in {PercentOff, EarlyBird, FlashSale, SubsequentNights})
    && (t.kind != FixedOff ==> t.amountMinor.None? && t.currency.None? && t.amountScope.None?)
    && (t.kind == FixedOff ==> Given(t.amountMinor) && t.currency.Some? && t.amountScope.Some?)
    && (t.kind == StayXPayY ==> t.minNights.Some? && t.minNights.value >= 2 && t.freeNights.Some? && t.freeNights.value < t.minNights.value)
    && (t.kind != StayXPayY ==> t.freeNights.None?)
    && (t.kind == EveryNthFree ==> t.minNights.Some? && t.minNights.value >= 2)
    && (t.minLeadDays.Some? <==> t.kind == EarlyBird) && (t.fromNight.Some? <==> t.kind == SubsequentNights)
  }

  predicate DatesTaken(t: Terms) {
    && DayTaken(t.bookFrom) && DayTaken(t.bookTo) && DayTaken(t.stayFrom) && DayTaken(t.stayTo) && DayTaken(t.activeFrom) && DayTaken(t.activeTo)
    && OrderTaken(t.bookFrom, t.bookTo) && OrderTaken(t.stayFrom, t.stayTo) && OrderTaken(t.activeFrom, t.activeTo)
    && (t.kind == FlashSale ==> Given(t.bookFrom) && Given(t.bookTo))
    && (t.stayWindowMode == NightsInWindow ==> Given(t.stayFrom) || Given(t.stayTo))
  }

  predicate WeekdaysTaken(days: seq<int>) {
    forall i | 0 <= i < |days| :: 0 <= days[i] <= 6
  }

  predicate TextsTaken(t: Terms) {
    && IsCode(Trim(t.code)) && 1 <= |Trim(t.name)| <= 80
    && (Given(t.stackingGroup) ==> IsLabel(t.stackingGroup.value, 40))
    && TextTaken(t.publicDescription, 500) && TextTaken(t.internalNotes, 2000)
    && WeekdaysTaken(t.weekdays)
  }

  predicate ListsTaken(t: Terms) {
    && LabelsTaken(t.incompatibleDealIds, MAX_IDS) && ChannelsTaken(t.channels) && MarketsTaken(t.sourceMarkets)
    && LabelsTaken(t.agencyIds, MAX_LISTED) && LabelsTaken(t.ratePlanIds, MAX_LISTED) && t.ratePlanIds != []
  }

  predicate MoneyTaken(t: Terms, enabled: seq<string>) {
    && AmountTaken(t.amountMinor) && AmountTaken(t.minSellFloorMinor)
    && (t.kind == FixedOff && t.currency.Some? ==> CurrencyTaken(t.currency.value, enabled))
  }

  /** The service has nothing to object to; `enabled` are the platform's settlement currencies. */
  predicate Taken(t: Terms, enabled: seq<string>) {
    NumbersTaken(t) && KindTaken(t) && DatesTaken(t) && TextsTaken(t) && ListsTaken(t) && MoneyTaken(t, enabled)
  }

  // ----- what the form leaves unchecked

  predicate RealDay(day: string) {
    day != "" ==> Calendar.ReadDay(day).Some?
  }

  predicate SmallAmount(m: Option<string>) {
    m.Some? && AllDigits(m.value) ==> ValueOf(m.value) <= MAX_AMOUNT
  }

  /** The stay of a stay-X-pay-Y deal is at most a year, and no amount passes the service's largest. */
  predicate WithinTheLimits(d: Draft, digits: string -> nat) {
    && (d.kind == StayXPayY && Whole(d.minNights).Some? ==> Whole(d.minNights).value <= MAX_NIGHTS)
    && SmallAmount(AmountOf(d, digits)) && SmallAmount(FloorOf(d, digits))
  }

  /** The rest that the service checks and the form does not. */
  predicate CarefullyTyped(d: Draft, enabled: seq<string>) {
    && (d.kind == FixedOff ==> CurrencyTaken(d.currency, enabled))
    && RealDay(d.bookFrom) && RealDay(d.bookTo) && RealDay(d.stayFrom) && RealDay(d.stayTo) && RealDay(d.activeFrom) && RealDay(d.activeTo)
    && (Trim(d.stackingGroup) != "" ==> IsLabel(Trim(d.stackingGroup), 40))
    && |Trim(d.publicDescription)| <= 500 && |Trim(d.internalNotes)| <= 2000
    && LabelsTaken(Words(d.incompatibleDealIds), MAX_IDS) && |Distincts(Markets(d))| <= MAX_MARKETS
    && LabelsTaken(d.agencyIds, MAX_LISTED) && LabelsTaken(d.ratePlanIds, MAX_LISTED)
    && WeekdaysTaken(d.weekdays)
  }

  // ----- the parts of what the form builds

  lemma {:induction false} BuiltNumbers(d: Draft, digits: string -> nat)
    requires Acceptable(d, digits)
    ensures NumbersTaken(TermsOf(d, digits)) <==> (d.kind == StayXPayY && Whole(d.minNights).Some? ==> Whole(d.minNights).value <= MAX_NIGHTS)
  {
    hide Acceptable, Trim, Whole, AmountOf, Money.PercentToBasisPoints, Words, KnownChannels, Sort, Markets;
    RightOf(d, digits, BadPriority);
    RightOf(d, digits, BadPercent);
    RightOf(d, digits, BadMinNights);
    RightOf(d, digits, BadStayPay);
    RightOf(d, digits, BadNth);
    RightOf(d, digits, BadFromNight);
    RightOf(d, digits, BadLeadDays);
    RightOf(d, digits, NeedsFloor);
    FloorIsGiven(d, digits);
  }

  lemma {:induction false} FloorIsGiven(d: Draft, digits: string -> nat)
    ensures FloorOf(d, digits).Some? ==> Given(FloorOf(d, digits))
    ensures AmountOf(d, digits).Some? ==> Given(AmountOf(d, digits))
  {
    hide Trim, Money.ParseMajorToMinor, Has;
    ParsedAmount(d.minSellFloor, digits(d.currency));
    ParsedAmount(d.amount, digits(d.currency));
  }

  lemma {:induction false} BuiltKind(d: Draft, digits: string -> nat)
    requires Acceptable(d, digits)
    ensures KindTaken(TermsOf(d, digits))
  {
    hide Acceptable, Trim, Whole, FloorOf, OptionalPercent, Money.PercentToBasisPoints, Money.ParseMajorToMinor, Nonzero, Words, KnownChannels, Sort, Markets, Given;
    RightOf(d, digits, BadPercent);
    RightOf(d, digits, BadAmount);
    RightOf(d, digits, BadStayPay);
    RightOf(d, digits, BadNth);
    RightOf(d, digits, BadFromNight);
    RightOf(d, digits, BadLeadDays);
    FloorIsGiven(d, digits);
  }

  lemma DayIsTaken(day: string)
    ensures DayTaken(DayOrNone(day)) <==> RealDay(day)
    ensures Given(DayOrNone(day)) <==> day != ""
  {
  }

  lemma OrderIsTaken(start: string, end: string)
    ensures OrderTaken(DayOrNone(start), DayOrNone(end)) <==> !EndsFirst(start, end)
  {
  }

  lemma {:induction false} BuiltDays(d: Draft, digits: string -> nat)
    requires Acceptable(d, digits)
    ensures DatesTaken(TermsOf(d, digits)) <==>
            RealDay(d.bookFrom) && RealDay(d.bookTo) && RealDay(d.stayFrom) && RealDay(d.stayTo) && RealDay(d.activeFrom) && RealDay(d.activeTo)
  {
    DayIsTaken(d.bookFrom);
    DayIsTaken(d.bookTo);
    DayIsTaken(d.stayFrom);
    DayIsTaken(d.stayTo);
    DayIsTaken(d.activeFrom);
    DayIsTaken(d.activeTo);
    OrderIsTaken(d.bookFrom, d.bookTo);
    OrderIsTaken(d.stayFrom, d.stayTo);
    OrderIsTaken(d.activeFrom, d.activeTo);
    hide Acceptable, TermsOf, DayTaken, RealDay, Given, OrderTaken, EndsFirst, DayOrNone, Wrong;
    BuiltDateFields(d, digits);
    DateFaults(d, digits);
    NightsFaults(d, digits);
    RightOf(d, digits, BookingEndsFirst);
    RightOf(d, digits, TravelEndsFirst);
    RightOf(d, digits, DealEndsFirst);
    RightOf(d, digits, NeedsTravelWindow);
    RightOf(d, digits, NoBookingWindow);
    FlashSaleNeedsWindow(d.kind);
  }

  lemma FlashSaleNeedsWindow(kind: Kind)
    ensures Has(kind, BookWindowRequired) <==> kind == FlashSale
  {
  }

  lemma {:induction false} TextIsTaken(s: string, max: nat)
    ensures TextTaken(TextOrNone(s), max) <==> |Trim(s)| <= max
    ensures Given(TextOrNone(s)) <==> Trim(s) != ""
  {
    TrimIdempotent(s);
  }

  lemma {:induction false} WeekdaysAreTaken(days: seq<int>)
    ensures WeekdaysTaken(Sort(days)) <==> WeekdaysTaken(days)
  {
    hide Sort;
    forall x
      ensures x in Sort(days) <==> x in days
    {
      SortMembers(days, x);
    }
    assert forall i | 0 <= i < |days| :: days[i] in Sort(days);
    assert forall i | 0 <= i < |Sort(days)| :: Sort(days)[i] in days;
  }

  lemma {:induction false} BuiltTextsTaken(d: Draft, digits: string -> nat)
    requires Acceptable(d, digits)
    ensures TextsTaken(TermsOf(d, digits)) <==>
            && (Trim(d.stackingGroup) != "" ==> IsLabel(Trim(d.stackingGroup), 40))
            && |Trim(d.publicDescription)| <= 500 && |Trim(d.internalNotes)| <= 2000
            && WeekdaysTaken(d.weekdays)
  {
    BuiltTextFields(d, digits);
    hide TermsOf, Acceptable, Trim, Wrong, IsCode, IsLabel, TextTaken, TextOrNone, Given, Sort, WeekdaysTaken;
    BuiltNames(d, digits);
    TextIsTaken(d.stackingGroup, 40);
    TextIsTaken(d.publicDescription, 500);
    TextIsTaken(d.internalNotes, 2000);
    WeekdaysAreTaken(d.weekdays);
    GroupIsTrimmed(d.stackingGroup);
  }

  lemma GroupIsTrimmed(s: string)
    ensures Given(TextOrNone(s)) ==> TextOrNone(s).value == Trim(s)
  {
  }

  lemma {:induction false} BuiltNames(d: Draft, digits: string -> nat)
    requires Acceptable(d, digits)
    ensures IsCode(Trim(Trim(d.code))) && 1 <= |Trim(Trim(d.name))| <= 80
  {
    hide Acceptable, Trim, IsCode, Wrong;
    TextFaults(d, digits);
    RightOf(d, digits, BadCode);
    RightOf(d, digits, BadName);
    TrimIdempotent(d.code);
    TrimIdempotent(d.name);
  }

  lemma {:induction false} BuiltTextFields(d: Draft, digits: string -> nat)
    ensures TermsOf(d, digits).code == Trim(d.code) && TermsOf(d, digits).name == Trim(d.name)
    ensures TermsOf(d, digits).stackingGroup == TextOrNone(d.stackingGroup) && TermsOf(d, digits).weekdays == Sort(d.weekdays)
    ensures TermsOf(d, digits).publicDescription == TextOrNone(d.publicDescription)
    ensures TermsOf(d, digits).internalNotes == TextOrNone(d.internalNotes)
  {
    hide Trim, TextOrNone, Sort, Whole, PercentOf, AmountOf, FloorOf, OptionalPercent, MinNightsOf, FreeNightsOf, Words, KnownChannels, Markets;
  }

  lemma {:induction false} FewChannels(channels: seq<string>)
    requires forall i | 0 <= i < |channels| :: Trim(channels[i]) in CHANNELS
    ensures Distincts(channels) <= {CHANNELS[0], CHANNELS[1]} && |Distincts(channels)| <= 2
  {
    hide Trim;
    if channels != [] {
      FewChannels(channels[1..]);
    }
    var two := {CHANNELS[0], CHANNELS[1]};
    assert forall c | c in CHANNELS :: c in two;
    SmallerSet(Distincts(channels), two);
  }

  lemma SmallerSet(a: set<string>, b: set<string>)
    requires a <= b
    ensures |a| <= |b|
  {
    assert b == a + (b - a);
    assert |b| == |a| + |b - a|;
  }

  lemma {:induction false} KnownAreTaken(channels: seq<string>)
    ensures ChannelsTaken(KnownChannels(channels))
  {
    var kept := KnownChannels(channels);
    BuiltChannels(channels);
    forall i | 0 <= i < |kept|
      ensures Trim(kept[i]) in CHANNELS
    {
      ChannelIsTrimmed(kept[i]);
    }
    FewChannels(kept);
  }

  lemma ChannelIsTrimmed(c: string)
    requires c in CHANNELS
    ensures Trim(c) == c
  {
    TrimOfTrimmed(c);
  }

  lemma {:induction false} MarketsAreTaken(markets: seq<string>)
    requires AllMarkets(markets)
    ensures MarketsTaken(markets) <==> |Distincts(markets)| <= MAX_MARKETS
  {
    hide Distincts;
    forall i | 0 <= i < |markets|
      ensures IsMarket(Trim(markets[i]))
    {
      TrimOfTrimmed(markets[i]);
    }
  }

  lemma {:induction false} BuiltLists(d: Draft, digits: string -> nat)
    requires Acceptable(d, digits)
    ensures ListsTaken(TermsOf(d, digits)) <==>
            && LabelsTaken(Words(d.incompatibleDealIds), MAX_IDS) && |Distincts(Markets(d))| <= MAX_MARKETS
            && LabelsTaken(d.agencyIds, MAX_LISTED) && LabelsTaken(d.ratePlanIds, MAX_LISTED)
  {
    TextFaults(d, digits);
    RightOf(d, digits, BadMarkets);
    RightOf(d, digits, NoRatePlans);
    MarketsAreTaken(Markets(d));
    KnownAreTaken(d.channels);
    hide Acceptable, Trim, Wrong, LabelsTaken, MarketsTaken, ChannelsTaken, Distincts, AllMarkets, Sort, Whole, PercentOf, AmountOf, FloorOf, OptionalPercent, MinNightsOf, FreeNightsOf, Words, KnownChannels, Markets, TextOrNone;
  }

  lemma TenDigits()
    ensures Scale(1, 10) > MAX_AMOUNT
  {
    assert Scale(1, 2) == 100 && Scale(1, 3) == 10 * Scale(1, 2) && Scale(1, 4) == 10 * Scale(1, 3);
    assert Scale(1, 5) == 10 * Scale(1, 4) && Scale(1, 6) == 10 * Scale(1, 5) && Scale(1, 7) == 10 * Scale(1, 6);
    assert Scale(1, 8) == 10 * Scale(1, 7) && Scale(1, 9) == 10 * Scale(1, 8) && Scale(1, 10) == 10 * Scale(1, 9);
  }

  lemma {:induction false} AmountIsTaken(m: Option<string>)
    requires Amounts(m)
    ensures AmountTaken(m) <==> SmallAmount(m)
  {
    if m.Some? && ValueOf(m.value) <= MAX_AMOUNT {
      TenDigits();
      NatTextOfValue(m.value);
      NatTextLength(ValueOf(m.value), 10);
      NatTextCanonical(ValueOf(m.value));
    }
  }

  lemma {:induction false} BuiltMoney(d: Draft, digits: string -> nat, enabled: seq<string>)
    requires Acceptable(d, digits)
    ensures MoneyTaken(TermsOf(d, digits), enabled) <==>
            && SmallAmount(AmountOf(d, digits)) && SmallAmount(FloorOf(d, digits))
            && (d.kind == FixedOff ==> CurrencyTaken(d.currency, enabled))
  {
    ParsedFields(d, digits);
    AmountIsTaken(AmountOf(d, digits));
    AmountIsTaken(FloorOf(d, digits));
    hide Acceptable, Trim, AmountTaken, SmallAmount, CurrencyTaken, Sort, Whole, PercentOf, AmountOf, FloorOf, OptionalPercent, MinNightsOf, FreeNightsOf, Words, KnownChannels, Markets, TextOrNone;
  }

  lemma {:induction false} ParsedFields(d: Draft, digits: string -> nat)
    ensures Amounts(AmountOf(d, digits)) && Amounts(FloorOf(d, digits))
  {
    hide Trim, Money.ParseMajorToMinor, Has;
    ParsedAmount(d.minSellFloor, digits(d.currency));
    ParsedAmount(d.amount, digits(d.currency));
  }

  /**
   * What the form builds is accepted by the service exactly when the stay of a stay-X-pay-Y deal and the amounts are within the
   * service's limits, and the rest that the form does not check was typed carefully.
   */
  lemma {:induction false} BuiltIsTakenIff(d: Draft, digits: string -> nat, enabled: seq<string>)
    requires Acceptable(d, digits)
    ensures Taken(TermsOf(d, digits), enabled) <==> WithinTheLimits(d, digits) && CarefullyTyped(d, enabled)
  {
    hide NumbersTaken, KindTaken, DatesTaken, TextsTaken, ListsTaken, MoneyTaken, TermsOf, Acceptable, SmallAmount, CurrencyTaken, RealDay, IsLabel, Trim, LabelsTaken, Distincts;
    BuiltNumbers(d, digits);
    BuiltKind(d, digits);
    BuiltDays(d, digits);
    BuiltTextsTaken(d, digits);
    BuiltLists(d, digits);
    BuiltMoney(d, digits, enabled);
  }

  // ----- a draft that the form lets through

  /** Stay 400 nights, pay one. */
  const LONG_STAY := Terms(
    "LONG", "Long stay", StayXPayY, 0, None, None, None, None, Some(400), Some(399), None, None, None, None, None, None, [],
    WholeStay, RoomAndGuests, false, None, [], [], [], [], None, None, None, None, None, None, None, ["p"])

  /** The form builds these terms from its own draft of them, and the service refuses them in whatever currencies. */
  lemma {:induction false} LongStayIsRefused(digits: string -> nat, enabled: seq<string>)
    ensures Acceptable(DraftOf(LONG_STAY, digits), digits) && TermsOf(DraftOf(LONG_STAY, digits), digits) == LONG_STAY
    ensures !Taken(LONG_STAY, enabled)
  {
    LongStayLoads();
    hide Loadable, Acceptable, DraftOf, TermsOf;
    LoadThenBuild(LONG_STAY, digits);
  }

  lemma LongStayLoads()
    ensures Loadable(LONG_STAY)
  {
    hide TextsOk, KindFields;
    LongStayTexts();
    LongStayKind();
  }

  lemma LongStayKind()
    ensures ParametersOk(LONG_STAY)
  {
  }

  lemma LongStayTexts()
    ensures TextsOk(LONG_STAY)
  {
  }

  // ----- deals as the service keeps them

  predicate TrimmedItems(items: seq<string>) {
    forall i | 0 <= i < |items| :: Trim(items[i]) == items[i]
  }

  /** Accepted terms in the form in which the service stores and shows them. */
  predicate Stored(t: Terms, enabled: seq<string>) {
    && Taken(t, enabled)
    && Trim(t.code) == t.code && Trim(t.name) == t.name
    && t.amountMinor != Some("") && t.minSellFloorMinor != Some("") && t.stackingGroup != Some("")
    && t.bookFrom != Some("") && t.bookTo != Some("") && t.stayFrom != Some("") && t.stayTo != Some("")
    && t.activeFrom != Some("") && t.activeTo != Some("")
    && (t.currency.Some? ==> Upper(Trim(t.currency.value)) == t.currency.value)
    && (t.publicDescription.Some? ==> Trimmed(t.publicDescription.value)) && (t.internalNotes.Some? ==> Trimmed(t.internalNotes.value))
    && TrimmedItems(t.incompatibleDealIds) && TrimmedItems(t.channels) && TrimmedItems(t.sourceMarkets)
    && Sorted(t.weekdays)
  }

  lemma StoredAmount(m: Option<string>)
    requires AmountTaken(m) && m != Some("")
    ensures Amounts(m)
  {
    if m.Some? {
      ValueOfPositive(m.value);
    }
  }

  lemma {:induction false} StoredNumbers(t: Terms, enabled: seq<string>)
    requires NumbersTaken(t) && KindTaken(t) && MoneyTaken(t, enabled)
    requires t.amountMinor != Some("") && t.minSellFloorMinor != Some("")
    requires t.currency.Some? ==> Upper(Trim(t.currency.value)) == t.currency.value
    ensures ParametersOk(t) && NightsOk(t) && GuardsOk(t)
  {
    hide AmountTaken, Amounts, Trim, Upper, Money.IsCurrencyCode;
    StoredAmount(t.amountMinor);
    StoredAmount(t.minSellFloorMinor);
  }

  lemma StoredDay(day: Option<string>)
    requires DayTaken(day) && day != Some("")
    ensures DayOk(day) && (Given(day) <==> day.Some?)
  {
  }

  lemma {:induction false} StoredDates(t: Terms)
    requires DatesTaken(t)
    requires t.bookFrom != Some("") && t.bookTo != Some("") && t.stayFrom != Some("") && t.stayTo != Some("") && t.activeFrom != Some("") && t.activeTo != Some("")
    ensures DatesOk(t)
  {
    StoredDay(t.bookFrom);
    StoredDay(t.bookTo);
    StoredDay(t.stayFrom);
    StoredDay(t.stayTo);
    StoredDay(t.activeFrom);
    StoredDay(t.activeTo);
    hide DayTaken, DayOk, Given, Calendar.Less;
  }

  lemma LabelIsAWord(s: string, max: nat)
    requires IsLabel(s, max)
    ensures IsWord(s) && Trimmed(s)
  {
  }

  lemma {:induction false} StoredLists(t: Terms)
    requires ListsTaken(t) && TrimmedItems(t.incompatibleDealIds) && TrimmedItems(t.channels) && TrimmedItems(t.sourceMarkets)
    ensures AllWords(t.incompatibleDealIds) && AllMarkets(t.sourceMarkets) && AllKnown(t.channels)
  {
    hide Trim, IsLabel, IsWord, IsMarket, Distincts;
    forall i | 0 <= i < |t.incompatibleDealIds|
      ensures IsWord(t.incompatibleDealIds[i])
    {
      assert IsLabel(Trim(t.incompatibleDealIds[i]), 64);
      LabelIsAWord(t.incompatibleDealIds[i], 64);
    }
  }

  lemma {:induction false} StoredTexts(t: Terms)
    requires TextsTaken(t) && ListsTaken(t) && TrimmedItems(t.incompatibleDealIds) && TrimmedItems(t.channels) && TrimmedItems(t.sourceMarkets)
    requires Trim(t.code) == t.code && Trim(t.name) == t.name && t.stackingGroup != Some("") && Sorted(t.weekdays)
    requires t.publicDescription.Some? ==> Trimmed(t.publicDescription.value)
    requires t.internalNotes.Some? ==> Trimmed(t.internalNotes.value)
    ensures TextsOk(t) <==> t.publicDescription != Some("") && t.internalNotes != Some("")
  {
    StoredLists(t);
    TrimOfTrimmed(t.name);
    if t.stackingGroup.Some? {
      LabelIsAWord(t.stackingGroup.value, 40);
    }
    hide Trim, Trimmed, IsCode, IsLabel, AllWords, AllMarkets, AllKnown, Sorted, LabelsTaken, MarketsTaken, ChannelsTaken;
  }

  /**
   * Every deal that the service keeps, of all seven kinds, loads into the form and is built again as it is, exactly unless a
   * description or note is kept as an empty text, which the form sends as none.
   */
  lemma {:induction false} StoredLoadsBackIff(t: Terms, digits: string -> nat, enabled: seq<string>)
    requires Stored(t, enabled)
    ensures LoadsBack(t, digits) <==> t.publicDescription != Some("") && t.internalNotes != Some("")
  {
    hide LoadsBack, NumbersTaken, KindTaken, DatesTaken, TextsTaken, ListsTaken, MoneyTaken, ParametersOk, NightsOk, GuardsOk, DatesOk, TextsOk, Trim, Trimmed, TrimmedItems, Sorted, Upper;
    LoadsBackIff(t, digits);
    StoredNumbers(t, enabled);
    StoredDates(t);
    StoredTexts(t);
  }
}
