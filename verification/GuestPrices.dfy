/**
 * Child and extra-adult price lines of a rate plan: what is accepted, and the sorted-neighbour overlap check. The check looks at
 * neighbours only; sorted by the lower age that is enough for all pairs, also among bands that end before they start.
 * The number of fraction digits of the currency is the parameter `digits`.
 */
module GuestPrices {
  import opened Common
  import opened Text
  import Money

  datatype Kind = Child | ExtraAdult

  datatype Basis = Net | Sell | Unchosen

  datatype LineDraft = LineDraft(kind: Kind, minAge: string, maxAge: string, amount: string, basis: Basis)

  datatype Band = Band(min: nat, max: nat)

  datatype Line = Line(kind: Kind, band: Option<Band>, amountMinor: string, basis: Basis)

  datatype Problem = NoPrice(at: nat) | NoBasis(at: nat) | BadBand(at: nat) | TwoExtraAdults | Overlap(a: Band, b: Band)

  const MAX_AGE := 17

  /** `^\d{1,2}$`. */
  predicate IsAgeText(s: string) {
    1 <= |s| <= 2 && AllDigits(s)
  }

  predicate HasBand(d: LineDraft) {
    d.kind == Child && IsAgeText(d.minAge) && IsAgeText(d.maxAge)
  }

  function BandOf(d: LineDraft): Band
    requires HasBand(d)
  {
    Band(ValueOf(d.minAge), ValueOf(d.maxAge))
  }

  predicate Covers(b: Band, age: int) {
    b.min <= age <= b.max
  }

  /** Some age is in both bands. */
  ghost predicate Share(a: Band, b: Band) {
    exists age :: Covers(a, age) && Covers(b, age)
  }

  predicate GoodBand(d: LineDraft) {
    HasBand(d) && BandOf(d).min <= BandOf(d).max <= MAX_AGE
  }

  function Price(d: LineDraft, digits: nat): Option<string> {
    if Trim(d.amount) == "" then None else Money.ParseMajorToMinor(d.amount, digits)
  }

  /** A draft line that is complete by itself. */
  predicate GoodLine(d: LineDraft, digits: nat) {
    Price(d, digits).Some? && d.basis != Unchosen && (d.kind == Child ==> GoodBand(d))
  }

  function LineOf(d: LineDraft, digits: nat): Line
    requires GoodLine(d, digits)
  {
    Line(d.kind, if d.kind == Child then Some(BandOf(d)) else None, Price(d, digits).value, d.basis)
  }

  function LinesOf(drafts: seq<LineDraft>, digits: nat): (r: seq<Line>)
    requires forall i | 0 <= i < |drafts| :: GoodLine(drafts[i], digits)
    ensures |r| == |drafts| && forall i | 0 <= i < |r| :: r[i] == LineOf(drafts[i], digits)
  {
    seq(|drafts|, i requires 0 <= i < |drafts| => LineOf(drafts[i], digits))
  }

  /** No two child drafts with readable bands share an age. */
  ghost predicate BandsApart(drafts: seq<LineDraft>) {
    forall i, j | 0 <= i < j < |drafts| && HasBand(drafts[i]) && HasBand(drafts[j]) :: !Share(BandOf(drafts[i]), BandOf(drafts[j]))
  }

  predicate OneExtraAdult(drafts: seq<LineDraft>) {
    forall i, j | 0 <= i < j < |drafts| :: drafts[i].kind != ExtraAdult || drafts[j].kind != ExtraAdult
  }

  // ----- the bands in order

  function BandsOf(drafts: seq<LineDraft>): seq<Band> {
    if drafts == [] then []
    else (if HasBand(drafts[0]) then [BandOf(drafts[0])] else []) + BandsOf(drafts[1..])
  }

  function Insert(b: Band, bands: seq<Band>): seq<Band> {
    if bands == [] || b.min <= bands[0].min then [b] + bands else [bands[0]] + Insert(b, bands[1..])
  }

  /** The stable sort by the lower age. */
  function SortBands(bands: seq<Band>): seq<Band> {
    if bands == [] then [] else Insert(bands[0], SortBands(bands[1..]))
  }

  predicate Ascending(bands: seq<Band>) {
    forall i, j | 0 <= i < j < |bands| :: bands[i].min <= bands[j].min
  }

  ghost predicate Apart(bands: seq<Band>) {
    forall i, j | 0 <= i < j < |bands| :: !Share(bands[i], bands[j])
  }

  /** The check that is made: each band starts after its neighbour ends. */
  predicate NeighboursApart(bands: seq<Band>, n: nat)
    requires n <= |bands|
  {
    forall i | 1 <= i < n :: bands[i].min > bands[i - 1].max
  }

  lemma {:induction false} InsertFacts(b: Band, bands: seq<Band>)
    ensures forall x :: x in Insert(b, bands) <==> x == b || x in bands
    ensures Ascending(bands) ==> Ascending(Insert(b, bands))
  {
    if bands != [] && b.min > bands[0].min {
      InsertFacts(b, bands[1..]);
      var rest := Insert(b, bands[1..]);
      assert bands == [bands[0]] + bands[1..];
      assert forall i | 0 <= i < |rest| :: rest[i] in rest;
    }
  }

  lemma ApartCons(b: Band, bands: seq<Band>)
    ensures Apart([b] + bands) <==> Apart(bands) && forall x | x in bands :: !Share(b, x)
  {
    hide Share;
    var all := [b] + bands;
    assert all[1..] == bands;
    if Apart(all) {
      forall i, j | 0 <= i < j < |bands|
        ensures !Share(bands[i], bands[j])
      {
        assert !Share(all[i + 1], all[j + 1]);
      }
      forall x | x in bands
        ensures !Share(b, x)
      {
        var k :| 0 <= k < |bands| && bands[k] == x;
        assert !Share(all[0], all[k + 1]);
      }
    }
  }

  lemma ShareSymmetric(a: Band, b: Band)
    ensures Share(a, b) <==> Share(b, a)
  {
  }

  lemma {:induction false} InsertApart(b: Band, bands: seq<Band>)
    ensures Apart(Insert(b, bands)) <==> Apart([b] + bands)
  {
    hide Apart, Share;
    if bands != [] && b.min > bands[0].min {
      var first, rest := bands[0], bands[1..];
      InsertApart(b, rest);
      InsertFacts(b, rest);
      ApartCons(first, Insert(b, rest));
      ApartCons(b, rest);
      ApartCons(b, bands);
      ApartCons(first, rest);
      ShareSymmetric(b, first);
      assert bands == [first] + rest;
    }
  }

  /** Sorting keeps the bands and whether two of them share an age, and orders them. */
  lemma {:induction false} SortedBands(bands: seq<Band>)
    ensures forall x :: x in SortBands(bands) <==> x in bands
    ensures Ascending(SortBands(bands))
    ensures Apart(SortBands(bands)) <==> Apart(bands)
  {
    hide Apart, Share;
    if bands != [] {
      SortedBands(bands[1..]);
      InsertFacts(bands[0], SortBands(bands[1..]));
      InsertApart(bands[0], SortBands(bands[1..]));
      ApartCons(bands[0], SortBands(bands[1..]));
      ApartCons(bands[0], bands[1..]);
      assert bands == [bands[0]] + bands[1..];
    }
  }

  lemma OverlapIff(a: Band, b: Band)
    requires a.min <= b.min
    ensures Share(a, b) ==> b.min <= a.max
    ensures a.min <= a.max && b.min <= b.max && b.min <= a.max ==> Share(a, b)
  {
    if b.min <= b.max && b.min <= a.max {
      assert Covers(a, b.min) && Covers(b, b.min);
    }
  }

  /** Checking the neighbours of an ordered list never misses a shared age, even among bands that end before they start. */
  lemma {:induction false} NeighboursSuffice(bands: seq<Band>)
    requires Ascending(bands) && NeighboursApart(bands, |bands|)
    ensures Apart(bands)
  {
    hide Share;
    forall i, j | 0 <= i < j < |bands|
      ensures !Share(bands[i], bands[j])
    {
      assert bands[i + 1].min > bands[i].max;
      OverlapIff(bands[i], bands[j]);
    }
  }

  /** And among bands that do not end before they start it reports nothing else. */
  lemma {:induction false} NeighboursNecessary(bands: seq<Band>)
    requires Ascending(bands) && Apart(bands) && forall b | b in bands :: b.min <= b.max
    ensures NeighboursApart(bands, |bands|)
  {
    hide Share;
    forall i | 1 <= i < |bands|
      ensures bands[i].min > bands[i - 1].max
    {
      OverlapIff(bands[i - 1], bands[i]);
      assert bands[i] in bands && bands[i - 1] in bands;
    }
  }

  lemma {:induction false} BandsMembers(drafts: seq<LineDraft>, b: Band)
    ensures b in BandsOf(drafts) <==> exists i :: 0 <= i < |drafts| && HasBand(drafts[i]) && BandOf(drafts[i]) == b
  {
    hide HasBand, BandOf;
    if drafts != [] {
      BandsMembers(drafts[1..], b);
      if b in BandsOf(drafts[1..]) {
        var i :| 0 <= i < |drafts[1..]| && HasBand(drafts[1..][i]) && BandOf(drafts[1..][i]) == b;
        assert HasBand(drafts[i + 1]);
      }
      if i :| 0 <= i < |drafts| && HasBand(drafts[i]) && BandOf(drafts[i]) == b {
        assert i > 0 ==> HasBand(drafts[1..][i - 1]);
      }
    }
  }

  lemma {:induction false} BandsAreApart(drafts: seq<LineDraft>)
    ensures Apart(BandsOf(drafts)) <==> BandsApart(drafts)
  {
    hide Apart, Share, HasBand, BandOf;
    if drafts == [] {
      ApartNothing();
    } else {
      var first, rest := drafts[0], drafts[1..];
      BandsAreApart(rest);
      assert drafts == [first] + rest;
      BandsApartCons(first, rest);
      if HasBand(first) {
        ApartCons(BandOf(first), BandsOf(rest));
        forall x
          ensures x in BandsOf(rest) <==> exists i :: 0 <= i < |rest| && HasBand(rest[i]) && BandOf(rest[i]) == x
        {
          BandsMembers(rest, x);
        }
        assert forall i | 0 <= i < |rest| && HasBand(rest[i]) :: BandOf(rest[i]) in BandsOf(rest);
      } else {
        assert BandsOf(drafts) == BandsOf(rest);
      }
    }
  }

  lemma ApartNothing()
    ensures Apart([])
  {
  }

  lemma BandsApartCons(first: LineDraft, rest: seq<LineDraft>)
    ensures BandsApart([first] + rest) <==>
            BandsApart(rest) && (HasBand(first) ==> forall i | 0 <= i < |rest| && HasBand(rest[i]) :: !Share(BandOf(first), BandOf(rest[i])))
  {
    hide Share, HasBand, BandOf;
    var all := [first] + rest;
    if BandsApart(all) {
      forall i, j | 0 <= i < j < |rest| && HasBand(rest[i]) && HasBand(rest[j])
        ensures !Share(BandOf(rest[i]), BandOf(rest[j]))
      {
        assert all[i + 1] == rest[i] && all[j + 1] == rest[j];
      }
      forall i | HasBand(first) && 0 <= i < |rest| && HasBand(rest[i])
        ensures !Share(BandOf(first), BandOf(rest[i]))
      {
        assert all[0] == first && all[i + 1] == rest[i];
      }
    }
  }

  // ----- building the input

  /** The problems of one line, in the source's order. */
  function LineProblems(d: LineDraft, at: nat, digits: nat): seq<Problem> {
    (if Price(d, digits).None? then [NoPrice(at)] else [])
    + (if d.basis == Unchosen then [NoBasis(at)] else [])
    + if d.kind == Child && !GoodBand(d) then [BadBand(at)] else []
  }

  method CheckLines(drafts: seq<LineDraft>, digits: nat) returns (lines: seq<Line>, problems: seq<Problem>)
    ensures problems == [] <==> forall i | 0 <= i < |drafts| :: GoodLine(drafts[i], digits)
    ensures problems == [] ==> lines == LinesOf(drafts, digits)
    ensures forall p | p in problems :: !p.Overlap?
  {
    hide GoodBand, HasBand, Price;
    lines, problems := [], [];
    for i := 0 to |drafts|
      invariant problems == [] <==> forall k | 0 <= k < i :: GoodLine(drafts[k], digits)
      invariant problems == [] ==> |lines| == i && forall k | 0 <= k < i :: lines[k] == LineOf(drafts[k], digits)
      invariant forall p | p in problems :: !p.Overlap?
    {
      var d := drafts[i];
      problems := problems + LineProblems(d, i, digits);
      if Price(d, digits).Some? && d.basis != Unchosen {
        var band := if d.kind == Child && HasBand(d) then Some(BandOf(d)) else None;
        lines := lines + [Line(d.kind, band, Price(d, digits).value, d.basis)];
      }
      GoodBandHasBand(d);
    }
  }

  lemma GoodBandHasBand(d: LineDraft)
    ensures GoodBand(d) ==> HasBand(d)
  {
  }

  method CountExtraAdults(drafts: seq<LineDraft>) returns (n: nat)
    ensures n > 1 <==> !OneExtraAdult(drafts)
  {
    n := 0;
    ghost var first := 0;
    for i := 0 to |drafts|
      invariant n > 1 <==> !OneExtraAdult(drafts[..i])
      invariant n == 0 <==> forall k | 0 <= k < i :: drafts[k].kind != ExtraAdult
      invariant n > 0 ==> 0 <= first < i && drafts[first].kind == ExtraAdult
    {
      ghost var before := drafts[..i];
      assert drafts[..i + 1] == before + [drafts[i]];
      if drafts[i].kind == ExtraAdult {
        if n == 0 {
          first := i;
        } else {
          assert drafts[..i + 1][first] == drafts[first] && drafts[..i + 1][i] == drafts[i];
        }
        n := n + 1;
      }
      OneMoreDraft(before, drafts[i]);
    }
    assert drafts[..|drafts|] == drafts;
  }

  lemma OneMoreDraft(before: seq<LineDraft>, d: LineDraft)
    ensures OneExtraAdult(before + [d]) <==> OneExtraAdult(before) && (d.kind == ExtraAdult ==> forall k | 0 <= k < |before| :: before[k].kind != ExtraAdult)
  {
    var all := before + [d];
    assert all[|before|] == d && all[..|before|] == before;
    assert forall k | 0 <= k < |before| :: all[k] == before[k];
  }

  /** The first pair of neighbours that overlap. */
  method FirstOverlap(bands: seq<Band>) returns (overlap: Option<Problem>)
    ensures overlap.None? <==> NeighboursApart(bands, |bands|)
    ensures overlap.Some? ==> overlap.value.Overlap?
  {
    overlap := None;
    var i := 1;
    while i < |bands|
      invariant 1 <= i && (i <= |bands| || i == 1)
      invariant NeighboursApart(bands, Min(i, |bands|))
    {
      if bands[i].min <= bands[i - 1].max {
        return Some(Overlap(bands[i - 1], bands[i]));
      }
      i := i + 1;
    }
  }

  /**
   * `buildGuestPricesInput`. The lines are accepted exactly when each is complete, there is at most one extra-adult line, and no two child
   * bands share an age; a shared age is always reported as an overlap, whatever else is wrong.
   */
  method BuildGuestPricesInput(drafts: seq<LineDraft>, digits: nat) returns (input: Option<seq<Line>>, problems: seq<Problem>)
    ensures input.Some? <==> problems == []
    ensures input.Some? <==> (forall i | 0 <= i < |drafts| :: GoodLine(drafts[i], digits)) && OneExtraAdult(drafts) && BandsApart(drafts)
    ensures input.Some? ==> input.value == LinesOf(drafts, digits)
    ensures !BandsApart(drafts) ==> exists p :: p in problems && p.Overlap?
  {
    hide GoodLine, LineOf, BandsApart, OneExtraAdult, Apart, SortBands, BandsOf;
    var lines, found := CheckLines(drafts, digits);
    problems := found;
    var extra := CountExtraAdults(drafts);
    if extra > 1 {
      problems := problems + [TwoExtraAdults];
    }
    var bands := SortBands(BandsOf(drafts));
    var overlap := FirstOverlap(bands);
    OverlapDecides(drafts, digits);
    if overlap.Some? {
      problems := problems + [overlap.value];
      assert problems[|problems| - 1].Overlap?;
    }
    input := if |problems| > 0 then None else Some(lines);
  }

  lemma {:induction false} OverlapDecides(drafts: seq<LineDraft>, digits: nat)
    ensures var bands := SortBands(BandsOf(drafts));
            && (NeighboursApart(bands, |bands|) ==> BandsApart(drafts))
            && ((forall i | 0 <= i < |drafts| :: GoodLine(drafts[i], digits)) && BandsApart(drafts) ==> NeighboursApart(bands, |bands|))
  {
    hide Apart, BandsApart, NeighboursApart, Ascending, SortBands, BandsOf, Price;
    var bands := SortBands(BandsOf(drafts));
    SortedBands(BandsOf(drafts));
    BandsAreApart(drafts);
    if NeighboursApart(bands, |bands|) {
      NeighboursSuffice(bands);
    }
    if (forall i | 0 <= i < |drafts| :: GoodLine(drafts[i], digits)) && BandsApart(drafts) {
      forall b | b in bands
        ensures b.min <= b.max
      {
        BandsMembers(drafts, b);
        var i :| 0 <= i < |drafts| && HasBand(drafts[i]) && BandOf(drafts[i]) == b;
        assert GoodLine(drafts[i], digits);
      }
      NeighboursNecessary(bands);
    }
  }

  /** An age matches at most one line of an accepted input, and every child band lies within 0 to 17. */
  lemma {:induction false} AgeMatchesOneLine(drafts: seq<LineDraft>, digits: nat, i: nat, j: nat, age: int)
    requires forall k | 0 <= k < |drafts| :: GoodLine(drafts[k], digits)
    requires BandsApart(drafts) && i < |drafts| && j < |drafts|
    ensures var a, b := LinesOf(drafts, digits)[i].band, LinesOf(drafts, digits)[j].band;
            && (a.Some? <==> drafts[i].kind == Child)
            && (a.Some? && Covers(a.value, age) ==> age <= MAX_AGE)
            && (a.Some? && b.Some? && Covers(a.value, age) && Covers(b.value, age) ==> i == j)
  {
    hide Price;
    assert GoodLine(drafts[i], digits) && GoodLine(drafts[j], digits);
  }

  // ----- loading the saved lines into the form

  function DraftOf(l: Line, currency: string, digits: nat): LineDraft {
    LineDraft(l.kind,
              if l.kind == Child && l.band.Some? then NatText(l.band.value.min) else "",
              if l.kind == Child && l.band.Some? then NatText(l.band.value.max) else "",
              Money.MinorToMajorInput(l.amountMinor, currency, digits), l.basis)
  }

  /** A line as the service stores it. */
  predicate Stored(l: Line) {
    && Canonical(l.amountMinor) && ValueOf(l.amountMinor) <= Money.MAX_SAFE_INTEGER && l.basis != Unchosen
    && (l.kind == Child <==> l.band.Some?)
    && (l.kind == Child ==> l.band.value.min <= l.band.value.max <= MAX_AGE)
  }

  lemma {:induction false} AgeTextReads(age: nat)
    requires age <= 99
    ensures IsAgeText(NatText(age)) && ValueOf(NatText(age)) == age
  {
    NatTextLength(age, 2);
    ValueOfNatText(age);
    assert Scale(1, 2) == 10 * Scale(1, 1) == 100;
  }

  lemma {:induction false} LoadedPrice(d: LineDraft, amountMinor: string, currency: string, digits: nat)
    requires d.amount == Money.MinorToMajorInput(amountMinor, currency, digits)
    requires Canonical(amountMinor) && ValueOf(amountMinor) <= Money.MAX_SAFE_INTEGER && Money.IsCurrencyCode(currency)
    ensures Price(d, digits) == Some(amountMinor)
  {
    hide Money.MinorToMajorInput, Money.IsCurrencyCode, Canonical, Trim, Money.ParseMajorToMinor, ValueOf;
    Money.EditRoundTrip(amountMinor, currency, digits);
    if Trim(d.amount) == "" {
      EmptyIsNoAmount(digits, d.amount);
    }
  }

  lemma {:induction false} LoadedBand(d: LineDraft, b: Band)
    requires d.kind == Child && d.minAge == NatText(b.min) && d.maxAge == NatText(b.max) && b.min <= b.max <= MAX_AGE
    ensures GoodBand(d) && BandOf(d) == b
  {
    hide NatText, ValueOf, IsAgeText;
    AgeTextReads(b.min);
    AgeTextReads(b.max);
  }

  /** Loading a stored line into the form and building it again gives the line. */
  lemma {:induction false} LoadedLineIsKept(l: Line, currency: string, digits: nat)
    requires Stored(l) && Money.IsCurrencyCode(currency)
    ensures GoodLine(DraftOf(l, currency, digits), digits) && LineOf(DraftOf(l, currency, digits), digits) == l
  {
    hide Price, GoodBand, BandOf, NatText, Money.MinorToMajorInput, Money.IsCurrencyCode, Canonical, ValueOf;
    var d := DraftOf(l, currency, digits);
    LoadedPrice(d, l.amountMinor, currency, digits);
    if l.kind == Child {
      LoadedBand(d, l.band.value);
    }
  }

  lemma {:induction false} EmptyIsNoAmount(digits: nat, text: string)
    requires Trim(text) == ""
    ensures Money.ParseMajorToMinor(text, digits) == None
  {
  }

  /** Loading any valid set of stored lines and building it again is accepted and gives the same lines. */
  lemma {:induction false} LoadedLinesAreKept(lines: seq<Line>, currency: string, digits: nat)
    requires Money.IsCurrencyCode(currency) && forall i | 0 <= i < |lines| :: Stored(lines[i])
    requires forall i, j | 0 <= i < j < |lines| && lines[i].band.Some? && lines[j].band.Some? :: !Share(lines[i].band.value, lines[j].band.value)
    requires forall i, j | 0 <= i < j < |lines| :: lines[i].kind != ExtraAdult || lines[j].kind != ExtraAdult
    ensures var drafts := Map((l: Line) => DraftOf(l, currency, digits), lines);
            && (forall i | 0 <= i < |drafts| :: GoodLine(drafts[i], digits)) && OneExtraAdult(drafts) && BandsApart(drafts)
            && LinesOf(drafts, digits) == lines
  {
    hide Share, Price, DraftOf, Money.IsCurrencyCode, Stored, IsAgeText;
    var drafts := Map((l: Line) => DraftOf(l, currency, digits), lines);
    forall i | 0 <= i < |drafts|
      ensures GoodLine(drafts[i], digits) && LineOf(drafts[i], digits) == lines[i]
    {
      assert drafts[i] == DraftOf(lines[i], currency, digits);
      LoadedLineIsKept(lines[i], currency, digits);
    }
  }
}
