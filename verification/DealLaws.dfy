/** The deal form undone and redone: loading stored terms into the form, and what the form can build. */
module DealLaws {
  import Calendar
  import opened Common
  import opened Deals
  import opened Sorting
  import opened Text
  import Money

  function NumberText(v: Option<nat>): string {
    if v.Some? then NatText(v.value) else ""
  }

  function PercentText(bp: Option<nat>): string {
    if bp.Some? then Money.BasisPointsToPercent(bp.value) else ""
  }

  function MoneyText(minor: Option<string>, currency: string, digits: string -> nat): string {
    if minor.Some? then Money.MinorToMajorInput(minor.value, currency, digits(currency)) else ""
  }

  function OrBlank(v: Option<string>): string {
    if v.Some? then v.value else ""
  }

  /** `draftFromTerms`. */
  function DraftOf(t: Terms, digits: string -> nat): Draft {
    var currency := if t.currency.Some? then t.currency.value else "AED";
    Draft(
      t.code, t.name, t.kind, NatText(t.priority),
      PercentText(t.percentBp), MoneyText(t.amountMinor, currency, digits), currency, if t.amountScope.Some? then t.amountScope.value else PerNight,
      NumberText(t.minNights),
      if t.minNights.Some? && t.freeNights.Some? then IntText(t.minNights.value - t.freeNights.value) else "",
      if t.fromNight.Some? then NatText(t.fromNight.value) else "2", NumberText(t.minLeadDays),
      OrBlank(t.bookFrom), OrBlank(t.bookTo), OrBlank(t.stayFrom), OrBlank(t.stayTo),
      t.weekdays, t.stayWindowMode, t.discountBase,
      t.combinable, OrBlank(t.stackingGroup), Join(t.incompatibleDealIds, ", "),
      t.channels, Join(t.sourceMarkets, ", "), t.agencyIds,
      PercentText(t.maxDiscountBp), MoneyText(t.minSellFloorMinor, currency, digits), PercentText(t.minMarginBp),
      OrBlank(t.activeFrom), OrBlank(t.activeTo),
      OrBlank(t.publicDescription), OrBlank(t.internalNotes),
      t.ratePlanIds)
  }

  // ----- what the form can hold

  predicate PercentInRange(bp: Option<nat>) {
    bp.Some? ==> 1 <= bp.value <= 9000
  }

  predicate Amounts(m: Option<string>) {
    m.Some? ==> Canonical(m.value) && 0 < ValueOf(m.value) <= Money.MAX_SAFE_INTEGER
  }

  /** The parameters are exactly those of the kind, within their limits. */
  predicate ParametersOk(t: Terms) {
    && t.priority <= 100
    && (t.percentBp.Some? <==> Has(t.kind, Percent)) && PercentInRange(t.percentBp)
    && (t.amountMinor.Some? <==> Has(t.kind, Amount)) && Amounts(t.amountMinor)
    && (t.currency.Some? <==> t.kind == FixedOff) && (t.currency.Some? ==> Money.IsCurrencyCode(t.currency.value))
    && (t.amountScope.Some? <==> t.kind == FixedOff)
    && (t.fromNight.Some? <==> Has(t.kind, FromNight)) && (t.fromNight.Some? ==> 2 <= t.fromNight.value <= 365)
    && (t.minLeadDays.Some? <==> Has(t.kind, MinLeadDays)) && (t.minLeadDays.Some? ==> 1 <= t.minLeadDays.value <= 730)
  }

  predicate NightsOk(t: Terms) {
    && (t.freeNights.Some? <==> t.kind == StayXPayY)
    && match t.kind
       case StayXPayY => t.minNights.Some? && 2 <= t.minNights.value <= 9999 && 1 <= t.freeNights.value < t.minNights.value
       case EveryNthFree => t.minNights.Some? && 2 <= t.minNights.value <= 365
       case _ => t.minNights.Some? ==> 1 <= t.minNights.value <= 365
  }

  predicate GuardsOk(t: Terms) {
    && PercentInRange(t.maxDiscountBp) && PercentInRange(t.minMarginBp) && Amounts(t.minSellFloorMinor)
    && (t.percentBp.Some? && t.percentBp.value > 5000 ==> t.minSellFloorMinor.Some?)
  }

  predicate DayOk(day: Option<string>) {
    day.Some? ==> DayShape(day.value)
  }

  predicate InOrder(start: Option<string>, end: Option<string>) {
    start.Some? && end.Some? ==> !Calendar.Less(end.value, start.value)
  }

  predicate DatesOk(t: Terms) {
    && DayOk(t.bookFrom) && DayOk(t.bookTo) && DayOk(t.stayFrom) && DayOk(t.stayTo) && DayOk(t.activeFrom) && DayOk(t.activeTo)
    && InOrder(t.bookFrom, t.bookTo) && InOrder(t.stayFrom, t.stayTo) && InOrder(t.activeFrom, t.activeTo)
    && (t.kind == FlashSale ==> t.bookFrom.Some? && t.bookTo.Some?)
    && (t.stayWindowMode == NightsInWindow ==> t.stayFrom.Some? || t.stayTo.Some?)
  }

  predicate TextOk(s: Option<string>) {
    s.Some? ==> Trimmed(s.value) && s.value != ""
  }

  predicate IsWord(s: string) {
    s != "" && forall i | 0 <= i < |s| :: !IsSeparator(s[i])
  }

  predicate AllWords(words: seq<string>) {
    forall i | 0 <= i < |words| :: IsWord(words[i])
  }

  predicate TextsOk(t: Terms) {
    && IsCode(t.code) && Trimmed(t.name) && 1 <= |t.name| <= 80
    && TextOk(t.stackingGroup) && TextOk(t.publicDescription) && TextOk(t.internalNotes)
    && AllWords(t.incompatibleDealIds) && AllMarkets(t.sourceMarkets)
    && AllKnown(t.channels)
    && Sorted(t.weekdays) && t.ratePlanIds != []
  }

  /** A deal that the form can show and build again: every parameter of its kind and no other, each in a form the texts can hold. */
  predicate Loadable(t: Terms) {
    ParametersOk(t) && NightsOk(t) && GuardsOk(t) && DatesOk(t) && TextsOk(t)
  }

  // ----- single texts

  lemma {:induction false} WholeReads(n: nat)
    requires n <= 9999
    ensures Whole(NatText(n)) == Some(n) && Trim(NatText(n)) != ""
  {
    DigitsAreTrimmed(NatText(n));
    NatTextLength(n, 4);
    assert Scale(1, 4) == 10 * Scale(1, 3) && Scale(1, 3) == 10 * Scale(1, 2) && Scale(1, 2) == 10 * Scale(1, 1);
    ValueOfNatText(n);
  }

  lemma {:induction false} WholeBound(v: string)
    requires Whole(v).Some?
    ensures Whole(v).value <= 9999
  {
    hide Trim;
    var t := Trim(v);
    ValueBound(t);
    ScaleBound(|t|);
  }

  lemma ScaleBound(k: nat)
    requires k <= 4
    ensures Scale(1, k) <= 10_000
  {
    assert Scale(1, 4) == 10 * Scale(1, 3) && Scale(1, 3) == 10 * Scale(1, 2) && Scale(1, 2) == 10 * Scale(1, 1);
  }

  lemma {:induction false} PercentReads(bp: nat)
    requires 1 <= bp <= 9000
    ensures Money.PercentToBasisPoints(Money.BasisPointsToPercent(bp)) == Some(bp)
    ensures Trim(Money.BasisPointsToPercent(bp)) != ""
  {
    hide Money.PercentToBasisPoints, Money.BasisPointsToPercent, Trim;
    Money.PercentRoundTrip(bp);
    Money.PercentTextTrimmed(bp);
    Money.PercentTextStartsWithDigit(bp);
  }

  lemma {:induction false} OptionalPercentReads(bp: Option<nat>)
    requires PercentInRange(bp)
    ensures OptionalPercent(PercentText(bp)) == bp && (Trim(PercentText(bp)) != "" <==> bp.Some?)
  {
    hide Money.PercentToBasisPoints, Money.BasisPointsToPercent, Trim;
    TrimNothing();
    if bp.Some? {
      PercentReads(bp.value);
    }
  }

  lemma {:induction false} NoAmountInBlank(text: string, digits: nat)
    requires Trim(text) == ""
    ensures Money.ParseMajorToMinor(text, digits) == None
  {
  }

  lemma {:induction false} MoneyReads(m: string, currency: string, digits: string -> nat)
    requires Amounts(Some(m)) && Money.IsCurrencyCode(currency)
    ensures var text := MoneyText(Some(m), currency, digits);
            Nonzero(Money.ParseMajorToMinor(text, digits(currency))) == Some(m) && Trim(text) != ""
  {
    hide Money.ParseMajorToMinor, Money.MinorToMajorInput, Money.IsCurrencyCode, Trim, Canonical;
    var text := MoneyText(Some(m), currency, digits);
    Money.EditRoundTrip(m, currency, digits(currency));
    if Trim(text) == "" {
      NoAmountInBlank(text, digits(currency));
    }
    ZeroText(m);
  }

  lemma ZeroText(m: string)
    requires Canonical(m)
    ensures m == "0" <==> ValueOf(m) == 0
  {
    NatTextOfValue(m);
  }

  lemma {:induction false} ParsedAmount(text: string, digits: nat)
    ensures Amounts(Nonzero(Money.ParseMajorToMinor(text, digits)))
  {
    hide Money.ParseMajorToMinor, Canonical;
    var m := Money.ParseMajorToMinor(text, digits);
    if m.Some? {
      Money.ParseIsExact(text, digits, m.value);
      ZeroText(m.value);
    }
  }

  // ----- word lists

  lemma {:induction false} PartsWithout(a: string)
    requires forall i | 0 <= i < |a| :: !IsSeparator(a[i])
    ensures Parts(a) == [a]
  {
    hide IsSeparator;
    if a != "" {
      PartsWithout(a[1..]);
      assert [a[0]] + a[1..] == a;
    }
  }

  lemma {:induction false} PartsAfter(a: string, c: char, b: string)
    requires (forall i | 0 <= i < |a| :: !IsSeparator(a[i])) && IsSeparator(c)
    ensures Parts(a + [c] + b) == [a] + Parts(b)
  {
    hide IsSeparator;
    var s := a + [c] + b;
    if a == "" {
      assert s[1..] == b;
    } else {
      assert s[1..] == a[1..] + [c] + b;
      PartsAfter(a[1..], c, b);
      assert [a[0]] + a[1..] == a;
    }
  }

  lemma {:induction false} WordsFirst(word: string, rest: string)
    requires IsWord(word)
    ensures Words(word + ", " + rest) == [word] + Words(rest)
  {
    var keep := (w: string) => w != "";
    assert IsSeparator(',') && IsSeparator(' ');
    PartsAfter(word, ',', [' '] + rest);
    PartsAfter("", ' ', rest);
    assert "" + [' '] + rest == [' '] + rest;
    assert word + ", " + rest == word + [','] + ([' '] + rest);
    FilterCons(keep, word, [""] + Parts(rest));
    FilterCons(keep, "", Parts(rest));
  }

  /** A printed list of words reads back as the words. */
  lemma {:induction false} WordsOfJoined(words: seq<string>)
    requires AllWords(words)
    ensures Words(Join(words, ", ")) == words
  {
    if words == [] {
      assert Parts("") == [""];
    } else if |words| == 1 {
      PartsWithout(words[0]);
      FilterAll((w: string) => w != "", words);
      assert words == [words[0]];
    } else {
      hide Words, IsWord;
      assert IsWord(words[0]);
      WordsOfJoined(words[1..]);
      WordsFirst(words[0], Join(words[1..], ", "));
      assert words == [words[0]] + words[1..];
    }
  }

  lemma {:induction false} PartsAreUnbroken(s: string, k: nat, i: nat)
    requires k < |Parts(s)| && i < |Parts(s)[k]|
    ensures !IsSeparator(Parts(s)[k][i])
  {
    hide IsSeparator;
    if s != "" {
      if IsSeparator(s[0]) {
        PartsAreUnbroken(s[1..], k - 1, i);
      } else if k > 0 {
        PartsAreUnbroken(s[1..], k, i);
      } else if i > 0 {
        PartsAreUnbroken(s[1..], 0, i - 1);
      }
    }
  }

  lemma {:induction false} WordsAreWords(s: string)
    ensures AllWords(Words(s))
  {
    hide IsSeparator;
    forall j | 0 <= j < |Words(s)|
      ensures IsWord(Words(s)[j])
    {
      var w := Words(s)[j];
      FilterMembers((w: string) => w != "", Parts(s), w);
      var k :| 0 <= k < |Parts(s)| && Parts(s)[k] == w;
      forall i | 0 <= i < |w|
        ensures !IsSeparator(w[i])
      {
        PartsAreUnbroken(s, k, i);
      }
    }
  }

  lemma {:induction false} MarketsAreWords(markets: seq<string>)
    requires AllMarkets(markets)
    ensures AllWords(markets) && Map(Upper, markets) == markets
  {
    forall i | 0 <= i < |markets|
      ensures IsWord(markets[i]) && Upper(markets[i]) == markets[i]
    {
      assert IsMarket(markets[i]);
      UpperStays(markets[i]);
    }
  }

  lemma UpperStays(s: string)
    requires UpperLetters(s)
    ensures Upper(s) == s && forall i | 0 <= i < |s| :: !IsSeparator(s[i])
  {
  }

  // ----- loading, then building

  lemma {:induction false} LoadedDiscount(t: Terms, digits: string -> nat)
    requires ParametersOk(t)
    ensures PercentOf(DraftOf(t, digits)) == t.percentBp && AmountOf(DraftOf(t, digits), digits) == t.amountMinor
  {
    hide Money.PercentToBasisPoints, Money.BasisPointsToPercent, Money.ParseMajorToMinor, Money.MinorToMajorInput, Trim, Has, NatText, IntText, Join, Money.IsCurrencyCode, Canonical;
    if t.percentBp.Some? {
      PercentReads(t.percentBp.value);
    }
    AmountIsFixedOff(t.kind);
    if t.amountMinor.Some? {
      MoneyReads(t.amountMinor.value, t.currency.value, digits);
    }
  }

  lemma AmountIsFixedOff(kind: Kind)
    ensures Has(kind, Amount) <==> kind == FixedOff
  {
  }

  lemma {:induction false} LoadedNights(t: Terms, digits: string -> nat)
    requires NightsOk(t)
    ensures MinNightsOf(DraftOf(t, digits)) == t.minNights && FreeNightsOf(DraftOf(t, digits)) == t.freeNights
    ensures t.kind == StayXPayY ==> StayPayOk(DraftOf(t, digits))
    ensures t.minNights.Some? ==> Whole(DraftOf(t, digits).minNights) == t.minNights
    ensures t.minNights.None? ==> Trim(DraftOf(t, digits).minNights) == ""
  {
    hide Whole, Trim, NatText, Join, PercentText, MoneyText;
    TrimNothing();
    if t.minNights.Some? {
      WholeReads(t.minNights.value);
      if t.freeNights.Some? {
        WholeReads(t.minNights.value - t.freeNights.value);
      }
    }
  }

  lemma {:induction false} LoadedNumbers(t: Terms, digits: string -> nat)
    requires ParametersOk(t)
    ensures var d := DraftOf(t, digits);
            && Whole(d.priority) == Some(t.priority)
            && (t.fromNight.Some? ==> Whole(d.fromNight) == t.fromNight)
            && (t.minLeadDays.Some? ==> Whole(d.minLeadDays) == t.minLeadDays)
  {
    hide Whole, NatText, IntText, Join, PercentText, MoneyText, Has, Money.IsCurrencyCode;
    WholeReads(t.priority);
    if t.fromNight.Some? {
      WholeReads(t.fromNight.value);
    }
    if t.minLeadDays.Some? {
      WholeReads(t.minLeadDays.value);
    }
  }

  lemma DefaultCurrency()
    ensures Money.IsCurrencyCode("AED")
  {
  }

  lemma {:induction false} LoadedGuards(t: Terms, digits: string -> nat)
    requires ParametersOk(t) && GuardsOk(t)
    ensures var d := DraftOf(t, digits);
            && OptionalPercent(d.maxDiscountPercent) == t.maxDiscountBp && (Trim(d.maxDiscountPercent) != "" <==> t.maxDiscountBp.Some?)
            && OptionalPercent(d.minMarginPercent) == t.minMarginBp && (Trim(d.minMarginPercent) != "" <==> t.minMarginBp.Some?)
            && FloorOf(d, digits) == t.minSellFloorMinor && (Trim(d.minSellFloor) != "" <==> t.minSellFloorMinor.Some?)
  {
    hide Money.ParseMajorToMinor, Money.IsCurrencyCode, OptionalPercent, PercentText, NatText, IntText, Join, Trim, Has, PercentInRange;
    OptionalPercentReads(t.maxDiscountBp);
    OptionalPercentReads(t.minMarginBp);
    TrimNothing();
    DefaultCurrency();
    if t.minSellFloorMinor.Some? {
      MoneyReads(t.minSellFloorMinor.value, if t.currency.Some? then t.currency.value else "AED", digits);
    }
  }

  lemma LoadedDay(day: Option<string>)
    requires DayOk(day)
    ensures DayOrNone(OrBlank(day)) == day
  {
  }

  lemma {:induction false} LoadedText(s: Option<string>)
    requires TextOk(s)
    ensures TextOrNone(OrBlank(s)) == s
  {
    hide Trim;
    TrimNothing();
    if s.Some? {
      TrimOfTrimmed(s.value);
    }
  }

  lemma {:induction false} CodeIsTrimmed(code: string)
    requires IsCode(code)
    ensures Trim(code) == code
  {
    assert !IsSpace(code[0]);
    assert !IsSpace(code[|code| - 1]);
    TrimOfTrimmed(code);
  }

  lemma {:induction false} LoadedTexts(t: Terms, digits: string -> nat)
    requires TextsOk(t)
    ensures var d := DraftOf(t, digits);
            && Trim(d.code) == t.code && Trim(d.name) == t.name
            && TextOrNone(d.stackingGroup) == t.stackingGroup
            && TextOrNone(d.publicDescription) == t.publicDescription && TextOrNone(d.internalNotes) == t.internalNotes
            && Words(d.incompatibleDealIds) == t.incompatibleDealIds && Markets(d) == t.sourceMarkets
            && KnownChannels(d.channels) == t.channels
            && Sort(d.weekdays) == t.weekdays
  {
    hide Trim, Trimmed, TextOrNone, OrBlank, Words, IsCode, AllWords, AllMarkets, NatText, IntText, PercentText, MoneyText, Sorted, Join, AllKnown, KnownChannels;
    CodeIsTrimmed(t.code);
    TrimOfTrimmed(t.name);
    LoadedText(t.stackingGroup);
    LoadedText(t.publicDescription);
    LoadedText(t.internalNotes);
    WordsOfJoined(t.incompatibleDealIds);
    MarketsAreWords(t.sourceMarkets);
    WordsOfJoined(t.sourceMarkets);
    LoadedChannels(t.channels);
    SortSorted(t.weekdays);
  }

  lemma {:induction false} LoadedDates(t: Terms, digits: string -> nat)
    requires DatesOk(t)
    ensures var d := DraftOf(t, digits);
            && DayOrNone(d.bookFrom) == t.bookFrom && DayOrNone(d.bookTo) == t.bookTo
            && DayOrNone(d.stayFrom) == t.stayFrom && DayOrNone(d.stayTo) == t.stayTo
            && DayOrNone(d.activeFrom) == t.activeFrom && DayOrNone(d.activeTo) == t.activeTo
  {
    hide DayOk, DayOrNone, OrBlank, InOrder;
    LoadedDay(t.bookFrom);
    LoadedDay(t.bookTo);
    LoadedDay(t.stayFrom);
    LoadedDay(t.stayTo);
    LoadedDay(t.activeFrom);
    LoadedDay(t.activeTo);
  }

  lemma LoadedShape(day: Option<string>)
    requires DayOk(day)
    ensures OrBlank(day) != "" ==> DayShape(OrBlank(day))
  {
  }

  lemma {:induction false} LoadedShapeIsRight(t: Terms, digits: string -> nat, field: DateField)
    requires DatesOk(t)
    ensures !Wrong(NotADate(field), DraftOf(t, digits), digits)
  {
    LoadedShape(t.bookFrom);
    LoadedShape(t.bookTo);
    LoadedShape(t.stayFrom);
    LoadedShape(t.stayTo);
    LoadedShape(t.activeFrom);
    LoadedShape(t.activeTo);
    hide DayShape, OrBlank, DatesOk, NatText, IntText, PercentText, MoneyText, NumberText, Join;
  }

  lemma LoadedOrder(start: Option<string>, end: Option<string>)
    requires InOrder(start, end)
    ensures !EndsFirst(OrBlank(start), OrBlank(end))
  {
  }

  lemma LoadedBlank(day: Option<string>)
    requires DayOk(day)
    ensures OrBlank(day) == "" <==> day.None?
  {
  }

  lemma {:induction false} LoadedDatesAreRight(t: Terms, digits: string -> nat, p: Problem)
    requires DatesOk(t) && (Stretch(p) == 3 || p == NoBookingWindow)
    ensures !Wrong(p, DraftOf(t, digits), digits)
  {
    if p.NotADate? {
      LoadedShapeIsRight(t, digits, p.field);
    } else {
      LoadedOrder(t.bookFrom, t.bookTo);
      LoadedOrder(t.stayFrom, t.stayTo);
      LoadedOrder(t.activeFrom, t.activeTo);
      LoadedBlank(t.bookFrom);
      LoadedBlank(t.bookTo);
      LoadedBlank(t.stayFrom);
      LoadedBlank(t.stayTo);
      hide DayOk, InOrder, EndsFirst, OrBlank, NatText, IntText, PercentText, MoneyText, NumberText, Join;
    }
  }

  lemma {:induction false} LoadedIsRight(t: Terms, digits: string -> nat, p: Problem)
    requires Loadable(t)
    ensures !Wrong(p, DraftOf(t, digits), digits)
  {
    if Stretch(p) == 3 || p == NoBookingWindow {
      LoadedDatesAreRight(t, digits, p);
    } else if Stretch(p) == 0 {
      LoadedDiscountIsRight(t, digits, p);
    } else if Stretch(p) == 1 {
      LoadedNightsAreRight(t, digits, p);
    } else if Stretch(p) == 2 {
      LoadedGuardsAreRight(t, digits, p);
    } else {
      LoadedTextsAreRight(t, digits, p);
    }
  }

  lemma {:induction false} LoadedDiscountIsRight(t: Terms, digits: string -> nat, p: Problem)
    requires ParametersOk(t) && Stretch(p) == 0
    ensures !Wrong(p, DraftOf(t, digits), digits)
  {
    hide DraftOf, Whole, PercentOf, AmountOf, Has, Money.IsCurrencyCode;
    LoadedDiscount(t, digits);
    LoadedNumbers(t, digits);
    LoadedKind(t, digits);
  }

  lemma LoadedKind(t: Terms, digits: string -> nat)
    ensures DraftOf(t, digits).kind == t.kind && DraftOf(t, digits).ratePlanIds == t.ratePlanIds
  {
  }

  lemma {:induction false} LoadedNightsAreRight(t: Terms, digits: string -> nat, p: Problem)
    requires ParametersOk(t) && NightsOk(t) && Stretch(p) == 1 && p != NoBookingWindow
    ensures !Wrong(p, DraftOf(t, digits), digits)
  {
    hide DraftOf, Whole, Trim, StayPayOk, Money.IsCurrencyCode;
    LoadedNights(t, digits);
    LoadedNumbers(t, digits);
    LoadedKind(t, digits);
  }

  lemma {:induction false} LoadedGuardsAreRight(t: Terms, digits: string -> nat, p: Problem)
    requires ParametersOk(t) && GuardsOk(t) && Stretch(p) == 2
    ensures !Wrong(p, DraftOf(t, digits), digits)
  {
    hide DraftOf, Trim, OptionalPercent, FloorOf, PercentOf, Has, Money.IsCurrencyCode;
    LoadedDiscount(t, digits);
    LoadedGuards(t, digits);
  }

  lemma {:induction false} LoadedTextsAreRight(t: Terms, digits: string -> nat, p: Problem)
    requires TextsOk(t) && Stretch(p) == 4
    ensures !Wrong(p, DraftOf(t, digits), digits)
  {
    hide DraftOf, Trim, Markets, IsCode, AllMarkets, Trimmed;
    LoadedTexts(t, digits);
    LoadedKind(t, digits);
  }

  /** Loading such a deal into the form and building it again reports nothing and gives the deal, for every kind. */
  lemma {:induction false} LoadThenBuild(t: Terms, digits: string -> nat)
    requires Loadable(t)
    ensures Acceptable(DraftOf(t, digits), digits)
    ensures TermsOf(DraftOf(t, digits), digits) == t
  {
    forall p: Problem
      ensures !Wrong(p, DraftOf(t, digits), digits)
    {
      LoadedIsRight(t, digits, p);
    }
    LoadedTerms(t, digits);
  }

  lemma {:induction false} LoadedTerms(t: Terms, digits: string -> nat)
    requires Loadable(t)
    ensures TermsOf(DraftOf(t, digits), digits) == t
  {
    LoadedNumbers(t, digits);
    LoadedDiscount(t, digits);
    LoadedNights(t, digits);
    LoadedGuards(t, digits);
    LoadedDates(t, digits);
    LoadedTexts(t, digits);
    LoadedRest(t, digits);
    hide DraftOf, Whole, Trim, PercentOf, AmountOf, MinNightsOf, FreeNightsOf, OptionalPercent, FloorOf, DayOrNone, TextOrNone, Words, Markets, Sort, KnownChannels, Has, NightsOk, GuardsOk, DatesOk, TextsOk, Money.IsCurrencyCode;
  }

  lemma LoadedRest(t: Terms, digits: string -> nat)
    ensures var d := DraftOf(t, digits);
            && d.kind == t.kind && d.stayWindowMode == t.stayWindowMode && d.discountBase == t.discountBase
            && d.combinable == t.combinable && d.agencyIds == t.agencyIds && d.ratePlanIds == t.ratePlanIds
            && (t.currency.Some? ==> d.currency == t.currency.value) && (t.amountScope.Some? ==> d.amountScope == t.amountScope.value)
  {
  }

  // ----- what the form can build

  lemma {:induction false} BuiltParameters(d: Draft, digits: string -> nat)
    requires Acceptable(d, digits)
    ensures ParametersOk(TermsOf(d, digits)) <==> (d.kind == FixedOff ==> Money.IsCurrencyCode(d.currency))
  {
    hide Acceptable, Trim, Whole, Money.ParseMajorToMinor, Money.PercentToBasisPoints, Money.IsCurrencyCode, Canonical, Words, Filter, Sort;
    RightOf(d, digits, BadPriority);
    RightOf(d, digits, BadPercent);
    RightOf(d, digits, BadAmount);
    RightOf(d, digits, BadFromNight);
    RightOf(d, digits, BadLeadDays);
    ParsedAmount(d.amount, digits(d.currency));
  }

  lemma RightOf(d: Draft, digits: string -> nat, p: Problem)
    requires Acceptable(d, digits)
    ensures !Wrong(p, d, digits)
  {
  }

  lemma {:induction false} BuiltNights(d: Draft, digits: string -> nat)
    requires Acceptable(d, digits)
    ensures NightsOk(TermsOf(d, digits))
  {
    hide Acceptable, Trim, Whole, PercentOf, AmountOf, FloorOf, OptionalPercent, Words, Filter, Sort;
    RightOf(d, digits, BadMinNights);
    RightOf(d, digits, BadStayPay);
    RightOf(d, digits, BadNth);
    if Whole(d.minNights).Some? {
      WholeBound(d.minNights);
    }
  }

  lemma {:induction false} BuiltGuards(d: Draft, digits: string -> nat)
    requires Acceptable(d, digits)
    ensures GuardsOk(TermsOf(d, digits))
  {
    hide Acceptable, Trim, Whole, PercentOf, Money.ParseMajorToMinor, Money.PercentToBasisPoints, Canonical, Words, Filter, Sort;
    RightOf(d, digits, NeedsFloor);
    ParsedAmount(d.minSellFloor, digits(d.currency));
  }

  lemma {:induction false} BuiltDay(d: Draft, digits: string -> nat, field: DateField)
    requires Acceptable(d, digits)
    ensures DayOk(DayOrNone(DateOf(d, field)))
  {
    hide Acceptable, DayShape, DateOf;
    RightOf(d, digits, NotADate(field));
  }

  lemma BuiltOrder(start: string, end: string)
    requires !EndsFirst(start, end)
    ensures InOrder(DayOrNone(start), DayOrNone(end))
  {
  }

  lemma BuiltDateFields(d: Draft, digits: string -> nat)
    ensures var t := TermsOf(d, digits);
            && t.bookFrom == DayOrNone(d.bookFrom) && t.bookTo == DayOrNone(d.bookTo) && t.stayFrom == DayOrNone(d.stayFrom)
            && t.stayTo == DayOrNone(d.stayTo) && t.activeFrom == DayOrNone(d.activeFrom) && t.activeTo == DayOrNone(d.activeTo)
            && t.kind == d.kind && t.stayWindowMode == d.stayWindowMode
  {
  }

  lemma {:induction false} BuiltOrders(d: Draft, digits: string -> nat)
    requires Acceptable(d, digits)
    ensures InOrder(DayOrNone(d.bookFrom), DayOrNone(d.bookTo))
    ensures InOrder(DayOrNone(d.stayFrom), DayOrNone(d.stayTo)) && InOrder(DayOrNone(d.activeFrom), DayOrNone(d.activeTo))
  {
    hide Acceptable, InOrder, EndsFirst, Wrong, DayOrNone;
    DateFaults(d, digits);
    RightOf(d, digits, BookingEndsFirst);
    RightOf(d, digits, TravelEndsFirst);
    RightOf(d, digits, DealEndsFirst);
    BuiltOrder(d.bookFrom, d.bookTo);
    BuiltOrder(d.stayFrom, d.stayTo);
    BuiltOrder(d.activeFrom, d.activeTo);
  }

  lemma {:induction false} BuiltWindows(d: Draft, digits: string -> nat)
    requires Acceptable(d, digits)
    ensures d.kind == FlashSale ==> DayOrNone(d.bookFrom).Some? && DayOrNone(d.bookTo).Some?
    ensures d.stayWindowMode == NightsInWindow ==> DayOrNone(d.stayFrom).Some? || DayOrNone(d.stayTo).Some?
  {
    hide Acceptable, EndsFirst, Wrong;
    DateFaults(d, digits);
    NightsFaults(d, digits);
    RightOf(d, digits, NoBookingWindow);
    RightOf(d, digits, NeedsTravelWindow);
  }

  lemma {:induction false} BuiltDays(d: Draft, digits: string -> nat)
    requires Acceptable(d, digits)
    ensures DayOk(DayOrNone(d.bookFrom)) && DayOk(DayOrNone(d.bookTo)) && DayOk(DayOrNone(d.stayFrom))
    ensures DayOk(DayOrNone(d.stayTo)) && DayOk(DayOrNone(d.activeFrom)) && DayOk(DayOrNone(d.activeTo))
  {
    hide Acceptable, DayOk, DayOrNone;
    BuiltDay(d, digits, BookFrom);
    BuiltDay(d, digits, BookTo);
    BuiltDay(d, digits, StayFrom);
    BuiltDay(d, digits, StayTo);
    BuiltDay(d, digits, ActiveFrom);
    BuiltDay(d, digits, ActiveTo);
  }

  lemma {:induction false} BuiltDates(d: Draft, digits: string -> nat)
    requires Acceptable(d, digits)
    ensures DatesOk(TermsOf(d, digits))
  {
    hide Acceptable, TermsOf, DayOk, InOrder, DayOrNone;
    BuiltDateFields(d, digits);
    BuiltDays(d, digits);
    BuiltOrders(d, digits);
    BuiltWindows(d, digits);
  }

  lemma {:induction false} BuiltText(s: string)
    ensures TextOk(TextOrNone(s))
  {
    hide Trim;
    var i, j := TrimShape(s);
  }

  predicate AllKnown(channels: seq<string>) {
    forall i | 0 <= i < |channels| :: channels[i] in CHANNELS
  }

  lemma {:induction false} BuiltChannels(channels: seq<string>)
    ensures AllKnown(KnownChannels(channels))
  {
    var kept := KnownChannels(channels);
    forall i | 0 <= i < |kept|
      ensures kept[i] in CHANNELS
    {
      FilterMembers((c: string) => c in CHANNELS, channels, kept[i]);
    }
  }

  lemma {:induction false} LoadedChannels(channels: seq<string>)
    requires AllKnown(channels)
    ensures KnownChannels(channels) == channels
  {
    FilterAll((c: string) => c in CHANNELS, channels);
  }

  lemma {:induction false} BuiltTexts(d: Draft, digits: string -> nat)
    requires Acceptable(d, digits)
    ensures TextsOk(TermsOf(d, digits))
  {
    hide Acceptable, Trim, Trimmed, Whole, PercentOf, AmountOf, FloorOf, OptionalPercent, Words, Sort, MinNightsOf, FreeNightsOf, TextOrNone, TextOk, IsCode, AllWords, AllMarkets, Sorted, AllKnown, KnownChannels;
    RightOf(d, digits, BadCode);
    RightOf(d, digits, BadName);
    RightOf(d, digits, BadMarkets);
    RightOf(d, digits, NoRatePlans);
    BuiltText(d.stackingGroup);
    BuiltText(d.publicDescription);
    BuiltText(d.internalNotes);
    WordsAreWords(d.incompatibleDealIds);
    BuiltChannels(d.channels);
    SortContents(d.weekdays);
    var i, j := TrimShape(d.name);
  }

  /** What the form builds can be shown and built again exactly when a fixed amount names its currency by a three-letter code. */
  lemma {:induction false} BuiltIsLoadableIff(d: Draft, digits: string -> nat)
    requires Acceptable(d, digits)
    ensures Loadable(TermsOf(d, digits)) <==> (d.kind == FixedOff ==> Money.IsCurrencyCode(d.currency))
  {
    hide ParametersOk, NightsOk, GuardsOk, DatesOk, TextsOk, TermsOf, Acceptable;
    BuiltParameters(d, digits);
    BuiltNights(d, digits);
    BuiltGuards(d, digits);
    BuiltDates(d, digits);
    BuiltTexts(d, digits);
  }

  /** Opening the deal in the form and building it again reports nothing and gives the deal. */
  ghost predicate LoadsBack(t: Terms, digits: string -> nat) {
    Acceptable(DraftOf(t, digits), digits) && TermsOf(DraftOf(t, digits), digits) == t
  }

  lemma {:induction false} NoCodeNoAmount(t: Terms, digits: string -> nat)
    requires t.kind == FixedOff && !Money.IsCurrencyCode(DraftOf(t, digits).currency)
    ensures Wrong(BadAmount, DraftOf(t, digits), digits)
  {
    var d := DraftOf(t, digits);
    AmountIsFixedOff(t.kind);
    assert d.kind == t.kind && d.amount == MoneyText(t.amountMinor, d.currency, digits);
    hide DraftOf, Money.IsCurrencyCode, Money.ParseMajorToMinor, Has, Trim;
    assert d.amount == "";
    TrimNothing();
    NoAmountInBlank(d.amount, digits(d.currency));
  }

  /** A deal loads back exactly when it is one of these. */
  lemma {:induction false} LoadsBackIff(t: Terms, digits: string -> nat)
    ensures LoadsBack(t, digits) <==> Loadable(t)
  {
    hide Loadable, TermsOf, DraftOf, Acceptable, Money.IsCurrencyCode, Wrong;
    if Loadable(t) {
      LoadThenBuild(t, digits);
    }
    if LoadsBack(t, digits) {
      var d := DraftOf(t, digits);
      LoadedKind(t, digits);
      BuiltIsLoadableIff(d, digits);
      if t.kind == FixedOff && !Money.IsCurrencyCode(d.currency) {
        NoCodeNoAmount(t, digits);
        RightOf(d, digits, BadAmount);
      }
    }
  }

  /**
   * What the form built is given back by opening it and building it again exactly when a fixed amount names its currency by a
   * three-letter code: otherwise the amount cannot be shown, and the deal is refused.
   */
  lemma {:induction false} BuiltLoadsBackIff(d: Draft, digits: string -> nat)
    requires Acceptable(d, digits)
    ensures LoadsBack(TermsOf(d, digits), digits) <==> (d.kind == FixedOff ==> Money.IsCurrencyCode(d.currency))
  {
    hide Loadable, TermsOf, DraftOf, Acceptable, LoadsBack, Money.IsCurrencyCode;
    LoadsBackIff(TermsOf(d, digits), digits);
    BuiltIsLoadableIff(d, digits);
  }
}
