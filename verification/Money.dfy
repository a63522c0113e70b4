/** Money and percentage text. */
module Money {
  // Integer minor units printed as decimals and read back, without rounding. The number of fraction digits of a currency
  // (`Intl.NumberFormat`) is the parameter `digits`.

  import opened Common
  import opened Text

  const MAX_SAFE_INTEGER: nat := 9007199254740991
  const DASH: string := "\U{2014}"

  // ----- reading a plain decimal

  /** What `^(\d+)(?:\.(\d*))?$` captures. */
  datatype Decimal = Decimal(whole: string, fraction: Option<string>)

  predicate WellFormed(d: Decimal) {
    && d.whole != [] && AllDigits(d.whole)
    && (d.fraction.Some? ==> AllDigits(d.fraction.value))
  }

  function FractionOf(d: Decimal): string {
    if d.fraction.Some? then d.fraction.value else ""
  }

  function DecimalSource(d: Decimal): string {
    d.whole + if d.fraction.Some? then "." + d.fraction.value else ""
  }

  function ReadDecimal(t: string): (r: Option<Decimal>)
    ensures r.Some? ==> WellFormed(r.value)
  {
    var parts := Split(t, '.');
    if |parts| > 2 || parts[0] == [] || !AllDigits(parts[0]) then None
    else if |parts| == 1 then Some(Decimal(parts[0], None))
    else if AllDigits(parts[1]) then Some(Decimal(parts[0], Some(parts[1])))
    else None
  }

  /** `padEnd(width, '0')`. */
  function PadEnd(s: string, width: nat): string {
    if |s| < width then s + Zeros(width - |s|) else s
  }

  function ParseMajorToMinor(amountMajor: string, digits: nat): Option<string> {
    var read := ReadDecimal(Trim(amountMajor));
    if read.None? then None
    else
      var fraction := FractionOf(read.value);
      if |fraction| > digits || (digits == 0 && read.value.fraction.Some?) then None
      else
        var minor := Scale(ValueOf(read.value.whole), digits) + ValueOf(PadEnd(fraction, digits));
        if minor <= MAX_SAFE_INTEGER then Some(NatText(minor)) else None
  }

  // ----- printing

  predicate IsCurrencyCode(currency: string) {
    |currency| == 3 && UpperLetters(currency)
  }

  predicate IsSignedDigits(s: string) {
    var body := Magnitude(s);
    body != [] && AllDigits(body)
  }

  predicate IsNegativeText(s: string) {
    s != [] && s[0] == '-'
  }

  function Magnitude(s: string): string {
    if IsNegativeText(s) then s[1..] else s
  }

  /** A minus sign for a negative amount; the text `-0` is not negative. */
  function SignText(minor: string): string
    requires IsSignedDigits(minor)
  {
    if IsNegativeText(minor) && ValueOf(Magnitude(minor)) != 0 then "-" else ""
  }

  function FractionText(minor: nat, digits: nat): string {
    if digits == 0 then "" else "." + PadStart(NatText(Remainder(minor, digits)), digits)
  }

  /** The decimal text of `minor / 10^digits`, with exactly `digits` fraction digits. */
  function DecimalText(minor: nat, digits: nat): string {
    NatText(Quotient(minor, digits)) + FractionText(minor, digits)
  }

  function MinorToMajorInput(amountMinor: string, currency: string, digits: nat): string {
    if amountMinor == [] || !AllDigits(amountMinor) || !IsCurrencyCode(currency) then ""
    else DecimalText(ValueOf(amountMinor), digits)
  }

  /** `replace(/\B(?=(\d{3})+(?!\d))/g, ',')` on a digit string: a comma wherever a whole number of three-digit groups follows. */
  function InsertCommas(s: string): string {
    if s == [] then []
    else [s[0]] + (if |s| > 1 && (|s| - 1) % 3 == 0 then "," else "") + InsertCommas(s[1..])
  }

  function StripCommas(s: string): string {
    Filter(c => c != ',', s)
  }

  /** `replace(pattern, '')` with a string pattern: the first occurrence only. */
  function RemoveFirst(s: string, pattern: string): string {
    if StartsWith(s, pattern) then s[|pattern|..]
    else if s == [] then []
    else [s[0]] + RemoveFirst(s[1..], pattern)
  }

  function FormatMinorUnits(amountMinor: string, currency: string, digits: nat): string {
    if !IsSignedDigits(amountMinor) || !IsCurrencyCode(currency) then DASH
    else
      var absolute := ValueOf(Magnitude(amountMinor));
      SignText(amountMinor) + currency + " " + InsertCommas(NatText(Quotient(absolute, digits))) + FractionText(absolute, digits)
  }

  function MinorToMajor(minor: string, currency: string, digits: nat): string {
    var shown := FormatMinorUnits(minor, currency, digits);
    if shown == DASH then "" else StripCommas(RemoveFirst(shown, currency + " "))
  }

  /** The export's own exponent table. */
  function Exponent(currency: string): Option<nat> {
    if currency in ["AED", "AUD", "CAD", "EUR", "GBP", "INR", "QAR", "SAR", "SGD", "USD"] then Some(2)
    else if currency in ["BHD", "KWD", "OMR"] then Some(3)
    else if currency == "JPY" then Some(0)
    else None
  }

  /** The export's formatter: it slices the digit text instead of dividing. */
  function FormatMinorDecimal(minor: string, currency: string): string {
    if !IsSignedDigits(minor) || |Magnitude(minor)| > 18 || Exponent(currency).None? then minor + " (minor units)"
    else
      SlicedDecimal(minor, Exponent(currency).value)
  }

  /** The digits before the point: all but the last `exponent` of the padded text. */
  function WholeDigits(u: string, exponent: nat): (w: string)
    ensures w != []
    ensures AllDigits(u) ==> AllDigits(w)
  {
    var digits := PadStart(u, exponent + 1);
    digits[..|digits| - exponent]
  }

  function FractionDigits(u: string, exponent: nat): (f: string)
    ensures |f| == exponent
    ensures AllDigits(u) ==> AllDigits(f)
  {
    var digits := PadStart(u, exponent + 1);
    digits[|digits| - exponent..]
  }

  function SlicedDecimal(minor: string, exponent: nat): string {
    var u := Magnitude(minor);
    (if IsNegativeText(minor) then "-" else "") + WholeDigits(u, exponent) + if exponent > 0 then "." + FractionDigits(u, exponent) else ""
  }

  // ----- lemmas about reading

  lemma {:induction false} SplitOnce(a: string, b: string, sep: char)
    requires sep !in a && sep !in b
    ensures Split(a + [sep] + b, sep) == [a, b]
  {
    SplitAfter(a, b, sep);
    SplitWithout(b, sep);
  }

  /** A decimal is read back from its own text. */
  lemma ReadDecimalSource(d: Decimal)
    requires WellFormed(d)
    ensures ReadDecimal(DecimalSource(d)) == Some(d)
  {
    if d.fraction.Some? {
      assert d.whole + ("." + d.fraction.value) == d.whole + ['.'] + d.fraction.value;
      SplitOnce(d.whole, d.fraction.value, '.');
    } else {
      assert d.whole + "" == d.whole;
      SplitWithout(d.whole, '.');
    }
  }

  lemma {:induction false} JoinSplit(s: string, sep: char)
    ensures Join(Split(s, sep), [sep]) == s
  {
    if s != [] {
      JoinSplit(s[1..], sep);
      var rest := Split(s[1..], sep);
      if s[0] == sep {
        assert Split(s, sep)[1..] == rest;
      } else {
        var parts := [[s[0]] + rest[0]] + rest[1..];
        assert parts[1..] == rest[1..];
        if |rest| > 1 {
          assert Join(rest, [sep]) == rest[0] + [sep] + Join(rest[1..], [sep]);
          assert Join(parts, [sep]) == [s[0]] + rest[0] + [sep] + Join(rest[1..], [sep]);
        }
      }
    }
  }

  /** Only the text of a decimal is read as that decimal. */
  lemma ReadDecimalOnly(t: string)
    ensures ReadDecimal(t).Some? ==> t == DecimalSource(ReadDecimal(t).value)
  {
    JoinSplit(t, '.');
    var parts := Split(t, '.');
    if |parts| == 2 {
      assert parts[1..] == [parts[1]];
    }
  }

  /** The integer that a decimal denotes once its point is removed; its scale is the number of fraction digits. */
  function Unscaled(d: Decimal): nat
    requires WellFormed(d)
  {
    Scale(ValueOf(d.whole), |FractionOf(d)|) + ValueOf(FractionOf(d))
  }

  /** The amount the parser computes for a decimal. */
  function Scaled(d: Decimal, digits: nat): nat
    requires Representable(d, digits)
  {
    assert AllDigits(PadEnd(FractionOf(d), digits));
    Scale(ValueOf(d.whole), digits) + ValueOf(PadEnd(FractionOf(d), digits))
  }

  /** The decimals a currency with this many digits can hold without rounding. */
  predicate Representable(d: Decimal, digits: nat) {
    && WellFormed(d)
    && |FractionOf(d)| <= digits
    && (digits == 0 ==> d.fraction.None?)
  }

  lemma {:induction false} ValueOfPadEnd(s: string, width: nat)
    requires AllDigits(s) && |s| <= width
    ensures AllDigits(PadEnd(s, width))
    ensures ValueOf(PadEnd(s, width)) == Scale(ValueOf(s), width - |s|)
  {
    var zeros := Zeros(width - |s|);
    ValueOfZeros(width - |s|);
    ValueAppend(s, zeros);
    assert PadEnd(s, width) == s + zeros;
  }

  /** The amount the parser computes is exactly the decimal, scaled to the currency's digits. */
  lemma {:induction false} ScaledExactly(d: Decimal, digits: nat)
    requires Representable(d, digits)
    ensures Scale(Scaled(d, digits), |FractionOf(d)|) == Scale(Unscaled(d), digits)
  {
    var w, f, k := ValueOf(d.whole), ValueOf(FractionOf(d)), |FractionOf(d)|;
    ValueOfPadEnd(FractionOf(d), digits);
    ScaleAdds(Scale(w, digits), Scale(f, digits - k), k);
    ScaleTwice(w, digits, k);
    ScaleTwice(f, digits - k, k);
    ScaleAdds(Scale(w, k), f, digits);
    ScaleTwice(w, k, digits);
  }

  /** What the parser answers for a text that is a representable decimal. */
  lemma {:induction false} ParseOfDecimal(text: string, d: Decimal, digits: nat)
    requires Representable(d, digits) && Trim(text) == DecimalSource(d)
    ensures ParseMajorToMinor(text, digits)
         == if Scaled(d, digits) <= MAX_SAFE_INTEGER then Some(NatText(Scaled(d, digits))) else None
  {
    ReadDecimalSource(d);
  }

  /** `m` minor units at `digits` digits are the decimal `d`, exactly: `m / 10^digits == unscaled / 10^scale`. */
  predicate SameAmount(m: string, d: Decimal, digits: nat) {
    && Canonical(m) && WellFormed(d)
    && Scale(ValueOf(m), |FractionOf(d)|) == Scale(Unscaled(d), digits)
  }

  /**
   * The parser never rounds: it answers `m` exactly when the trimmed text is a plain decimal the currency can hold,
   * `m` minor units are that decimal, and `m` is a safe integer.
   */
  lemma {:induction false} ParseIsExact(text: string, digits: nat, m: string)
    ensures ParseMajorToMinor(text, digits) == Some(m) <==>
            exists d: Decimal ::
              && Representable(d, digits) && Trim(text) == DecimalSource(d)
              && SameAmount(m, d, digits) && ValueOf(m) <= MAX_SAFE_INTEGER
  {
    if ParseMajorToMinor(text, digits) == Some(m) {
      var d := ReadDecimal(Trim(text)).value;
      ReadDecimalOnly(Trim(text));
      ParseOfDecimal(text, d, digits);
      ScaledExactly(d, digits);
      NatTextCanonical(Scaled(d, digits));
      ValueOfNatText(Scaled(d, digits));
      assert SameAmount(m, d, digits);
    }
    forall d: Decimal |
      && Representable(d, digits) && Trim(text) == DecimalSource(d)
      && SameAmount(m, d, digits) && ValueOf(m) <= MAX_SAFE_INTEGER
      ensures ParseMajorToMinor(text, digits) == Some(m)
    {
      ParseOfDecimal(text, d, digits);
      ScaledExactly(d, digits);
      ScaleInjective(Scaled(d, digits), ValueOf(m), |FractionOf(d)|);
      NatTextOfValue(m);
    }
  }

  // ----- round trips

  /** The decimal that `DecimalText` prints. */
  function PrintedDecimal(minor: nat, digits: nat): Decimal {
    Decimal(NatText(Quotient(minor, digits)),
            if digits == 0 then None else Some(PadStart(NatText(Remainder(minor, digits)), digits)))
  }

  lemma {:induction false} PrintedFraction(minor: nat, digits: nat)
    requires digits > 0
    ensures |PadStart(NatText(Remainder(minor, digits)), digits)| == digits
    ensures ValueOf(PadStart(NatText(Remainder(minor, digits)), digits)) == Remainder(minor, digits)
  {
    var rest := Remainder(minor, digits);
    DivisionByPower(minor, digits);
    NatTextLength(rest, digits);
    ValueOfPadStart(NatText(rest), digits);
    ValueOfNatText(rest);
  }

  lemma {:induction false} PrintedDecimalIsExact(minor: nat, digits: nat)
    ensures DecimalSource(PrintedDecimal(minor, digits)) == DecimalText(minor, digits)
    ensures Representable(PrintedDecimal(minor, digits), digits)
    ensures Scaled(PrintedDecimal(minor, digits), digits) == minor
  {
    var d := PrintedDecimal(minor, digits);
    ValueOfNatText(Quotient(minor, digits));
    DivisionByPower(minor, digits);
    if digits > 0 {
      PrintedFraction(minor, digits);
    }
  }

  lemma DigitsAtBothEnds(s: string)
    requires s != [] && IsDigit(s[0]) && IsDigit(s[|s| - 1])
    ensures Trim(s) == s
  {
    TrimOfTrimmed(s);
  }

  lemma {:induction false} DecimalTextIsTrimmed(minor: nat, digits: nat)
    ensures Trim(DecimalText(minor, digits)) == DecimalText(minor, digits)
  {
    var t := DecimalText(minor, digits);
    if digits > 0 {
      var padded := PadStart(NatText(Remainder(minor, digits)), digits);
      assert t[|t| - 1] == padded[|padded| - 1];
    }
    DigitsAtBothEnds(t);
  }

  /** Reading a printed amount gives it back exactly when it is a safe integer; above that nothing is read. */
  lemma {:induction false} ParseOfPrinted(minor: nat, digits: nat)
    ensures ParseMajorToMinor(DecimalText(minor, digits), digits)
         == if minor <= MAX_SAFE_INTEGER then Some(NatText(minor)) else None
  {
    PrintedDecimalIsExact(minor, digits);
    DecimalTextIsTrimmed(minor, digits);
    ParseOfDecimal(DecimalText(minor, digits), PrintedDecimal(minor, digits), digits);
  }

  /** The editable text of a minor amount reads back as the same amount, for every currency precision. */
  lemma EditRoundTrip(amountMinor: string, currency: string, digits: nat)
    requires Canonical(amountMinor) && IsCurrencyCode(currency)
    ensures ParseMajorToMinor(MinorToMajorInput(amountMinor, currency, digits), digits)
         == if ValueOf(amountMinor) <= MAX_SAFE_INTEGER then Some(amountMinor) else None
  {
    ParseOfPrinted(ValueOf(amountMinor), digits);
    NatTextOfValue(amountMinor);
  }

  // ----- the grouped formatter

  lemma StripFirst(c: char, rest: string)
    ensures StripCommas([c] + rest) == (if c == ',' then StripCommas(rest) else [c] + StripCommas(rest))
  {
    assert ([c] + rest)[1..] == rest;
  }

  lemma GroupedShape(s: string)
    requires s != []
    ensures InsertCommas(s) == [s[0]] + (if |s| > 1 && (|s| - 1) % 3 == 0 then [','] + InsertCommas(s[1..]) else InsertCommas(s[1..]))
  {
  }

  lemma {:induction false} StripInsertCommas(s: string)
    requires AllDigits(s)
    ensures StripCommas(InsertCommas(s)) == s
  {
    hide StripCommas;
    if s == [] {
      StripNothing([]);
    } else {
      var rest := InsertCommas(s[1..]);
      GroupedShape(s);
      StripInsertCommas(s[1..]);
      hide InsertCommas;
      StripFirst(',', rest);
      StripFirst(s[0], [','] + rest);
      StripFirst(s[0], rest);
      assert [s[0]] + s[1..] == s;
    }
  }

  /** Digit groups of three, after a first group of one to three; `n` digits in all. */
  predicate GroupsOfThree(groups: seq<string>, n: nat) {
    && groups != [] && n > 0 && |groups[0]| == (n - 1) % 3 + 1
    && (forall i | 1 <= i < |groups| :: |groups[i]| == 3)
    && (forall i | 0 <= i < |groups| :: AllDigits(groups[i]))
  }

  lemma OneGroup(d: char)
    requires IsDigit(d)
    ensures GroupsOfThree([[d]], 1)
  {
  }

  /** One more digit in front: a new group, or the first group grown. */
  lemma DigitInFront(d: char, groups: seq<string>, n: nat)
    requires IsDigit(d) && GroupsOfThree(groups, n)
    ensures GroupsOfThree(if n % 3 == 0 then [[d]] + groups else [[d] + groups[0]] + groups[1..], n + 1)
  {
  }

  /** Every group the formatter makes has three digits, except a first group of one to three. */
  lemma {:induction false} CommaGroups(s: string)
    requires AllDigits(s) && s != []
    ensures GroupsOfThree(Split(InsertCommas(s), ','), |s|)
  {
    GroupedShape(s);
    if |s| == 1 {
      assert InsertCommas(s[1..]) == [];
      SplitFirst(s[0], [], ',');
      OneGroup(s[0]);
    } else {
      CommaGroups(s[1..]);
      var rest := InsertCommas(s[1..]);
      DigitInFront(s[0], Split(rest, ','), |s| - 1);
      hide *;
      SplitFirst(s[0], [','] + rest, ',');
      SplitFirst(',', rest, ',');
      SplitFirst(s[0], rest, ',');
    }
  }

  lemma {:induction false} StripNothing(s: string)
    requires ',' !in s
    ensures StripCommas(s) == s
  {
    FilterAll(c => c != ',', s);
  }

  lemma {:induction false} StripShown(sign: string, whole: string, fraction: string)
    requires ',' !in sign && ',' !in fraction && AllDigits(whole)
    ensures StripCommas(sign + InsertCommas(whole) + fraction) == sign + whole + fraction
  {
    var keep := (c: char) => c != ',';
    FilterAppend(keep, sign + InsertCommas(whole), fraction);
    FilterAppend(keep, sign, InsertCommas(whole));
    StripInsertCommas(whole);
    StripNothing(sign);
    StripNothing(fraction);
  }

  /** `minorToMajor` is the sign and the plain decimal: no currency and no separators left. */
  lemma {:induction false} MinorToMajorIsDecimal(minor: string, currency: string, digits: nat)
    requires IsSignedDigits(minor) && IsCurrencyCode(currency)
    ensures MinorToMajor(minor, currency, digits) == SignText(minor) + DecimalText(ValueOf(Magnitude(minor)), digits)
  {
    var absolute := ValueOf(Magnitude(minor));
    var sign, whole, fraction := SignText(minor), NatText(Quotient(absolute, digits)), FractionText(absolute, digits);
    var shown := FormatMinorUnits(minor, currency, digits);
    Reassociate(sign, currency, InsertCommas(whole), fraction);
    RemoveFirstAfterSign(sign, currency + " ", InsertCommas(whole) + fraction);
    StripShown(sign, whole, fraction);
    Associate(sign, InsertCommas(whole), fraction);
    Associate(sign, whole, fraction);
    assert |shown| >= 4;
  }

  lemma Associate(a: string, b: string, c: string)
    ensures a + b + c == a + (b + c)
  {
  }

  lemma Reassociate(a: string, b: string, c: string, d: string)
    ensures a + b + " " + c + d == a + ((b + " ") + (c + d))
  {
  }

  lemma RemoveFirstAfterSign(sign: string, pattern: string, rest: string)
    requires sign == "" || sign == "-"
    requires pattern != [] && pattern[0] != '-'
    ensures RemoveFirst(sign + (pattern + rest), pattern) == sign + rest
  {
    assert StartsWith(pattern + rest, pattern);
    assert (pattern + rest)[|pattern|..] == rest;
    if sign == "" {
      assert sign + (pattern + rest) == pattern + rest;
      assert sign + rest == rest;
    } else {
      var s := sign + (pattern + rest);
      assert s[0] == '-' && s[1..] == pattern + rest;
      assert !StartsWith(s, pattern) by {
        assert s[0] != pattern[0];
      }
    }
  }

  /** The grouped display, stripped for editing, reads back as the same amount. */
  lemma GroupedRoundTrip(amountMinor: string, currency: string, digits: nat)
    requires Canonical(amountMinor) && IsCurrencyCode(currency)
    ensures ParseMajorToMinor(MinorToMajor(amountMinor, currency, digits), digits)
         == if ValueOf(amountMinor) <= MAX_SAFE_INTEGER then Some(amountMinor) else None
  {
    MinorToMajorIsDecimal(amountMinor, currency, digits);
    assert SignText(amountMinor) + DecimalText(ValueOf(amountMinor), digits) == DecimalText(ValueOf(amountMinor), digits);
    ParseOfPrinted(ValueOf(amountMinor), digits);
    NatTextOfValue(amountMinor);
  }

  // ----- the export formatter against the dividing formatter

  /**
   * The texts on which slicing and dividing agree: no leading zero in front of the whole part, and no negative zero.
   * Leading zeros that only fill the fraction (`007` at two digits) do agree.
   */
  predicate SlicesLikeDivision(minor: string, exponent: nat) {
    var digits := Magnitude(minor);
    && (|digits| <= exponent + 1 || digits[0] != '0')
    && (IsNegativeText(minor) ==> exists i :: 0 <= i < |digits| && digits[i] != '0')
  }

  lemma {:induction false} ValueZero(s: string)
    requires AllDigits(s)
    ensures ValueOf(s) == 0 <==> forall i | 0 <= i < |s| :: s[i] == '0'
  {
    if s != [] {
      ValueZero(s[..|s| - 1]);
      assert forall i | 0 <= i < |s| - 1 :: s[..|s| - 1][i] == s[i];
    }
  }

  /** Cutting a padded digit text at the point divides its value by the power of ten. */
  lemma {:induction false} SliceIsDivision(u: string, exponent: nat)
    requires AllDigits(u)
    ensures Quotient(ValueOf(u), exponent) == ValueOf(WholeDigits(u, exponent))
    ensures Remainder(ValueOf(u), exponent) == ValueOf(FractionDigits(u, exponent))
  {
    var p, w, f := PadStart(u, exponent + 1), WholeDigits(u, exponent), FractionDigits(u, exponent);
    assert p == w + f;
    hide *;
    ValueOfPadStart(u, exponent + 1);
    ValueAppend(w, f);
    ValueBound(f);
    DivisionUnique(ValueOf(u), exponent, ValueOf(w), ValueOf(f));
  }

  lemma CanonicalWhole(u: string, exponent: nat)
    requires u != [] && AllDigits(u)
    ensures NatText(ValueOf(WholeDigits(u, exponent))) == WholeDigits(u, exponent) <==> (|u| <= exponent + 1 || u[0] != '0')
  {
    var w := WholeDigits(u, exponent);
    hide NatText, ValueOf;
    NatTextCanonical(ValueOf(w));
    if |u| <= exponent + 1 || u[0] != '0' {
      NatTextOfValue(w);
    }
  }

  lemma ExponentsAreOfCodes(currency: string)
    requires Exponent(currency).Some?
    ensures IsCurrencyCode(currency)
  {
  }

  /** Slicing prints the same decimal as the dividing formatter exactly on those texts, for every number of digits. */
  lemma {:induction false} SlicingAgreesWithDivision(minor: string, currency: string, exponent: nat)
    requires IsSignedDigits(minor) && IsCurrencyCode(currency)
    ensures SlicedDecimal(minor, exponent) == MinorToMajor(minor, currency, exponent) <==> SlicesLikeDivision(minor, exponent)
  {
    hide NatText, ValueOf, PadStart, Quotient, Remainder, WholeDigits, FractionDigits, MinorToMajor;
    var u := Magnitude(minor);
    MinorToMajorIsDecimal(minor, currency, exponent);
    SliceIsDivision(u, exponent);
    CanonicalWhole(u, exponent);
    ValueZero(u);
    var sign := if IsNegativeText(minor) then "-" else "";
    var fraction := if exponent > 0 then "." + FractionDigits(u, exponent) else "";
    assert FractionText(ValueOf(u), exponent) == fraction by {
      if exponent > 0 {
        PaddedPrint(FractionDigits(u, exponent));
      }
    }
    Associate(SignText(minor), NatText(ValueOf(WholeDigits(u, exponent))), fraction);
    SameUpToFraction(sign, WholeDigits(u, exponent), SignText(minor), NatText(ValueOf(WholeDigits(u, exponent))), fraction);
  }

  /** The export prints the same decimal as the dividing formatter exactly on those texts, negative amounts included. */
  lemma ExportAgreesWithFormatter(minor: string, currency: string)
    requires IsSignedDigits(minor) && |Magnitude(minor)| <= 18
    requires Exponent(currency).Some?
    ensures FormatMinorDecimal(minor, currency) == MinorToMajor(minor, currency, Exponent(currency).value)
       <==> SlicesLikeDivision(minor, Exponent(currency).value)
  {
    ExponentsAreOfCodes(currency);
    SlicingAgreesWithDivision(minor, currency, Exponent(currency).value);
  }

  lemma SameUpToFraction(s: string, a: string, t: string, b: string, fraction: string)
    requires s == "" || s == "-"
    requires t == "" || t == "-"
    requires a != [] && AllDigits(a) && b != [] && AllDigits(b)
    ensures s + a + fraction == t + b + fraction <==> s == t && a == b
  {
    if s + a + fraction == t + b + fraction {
      var n := |s + a|;
      assert |t + b| == n;
      assert (s + a + fraction)[..n] == s + a;
      assert (t + b + fraction)[..n] == t + b;
      assert (s + a)[0] == (t + b)[0];
      assert s == t;
      assert (s + a)[|s|..] == a && (t + b)[|t|..] == b;
    }
  }

  // ----- percentages

  /** `^(\d{1,w})(?:\.(\d{1,2}))?$` read as basis points. */
  function ReadPercent(t: string, wholeDigits: nat): Option<nat> {
    var read := ReadDecimal(t);
    if read.None? || |read.value.whole| > wholeDigits then None
    else if read.value.fraction.Some? && !(1 <= |read.value.fraction.value| <= 2) then None
    else Some(ValueOf(read.value.whole) * 100 + ValueOf(PadEnd(FractionOf(read.value), 2)))
  }

  function PercentToBasisPoints(text: string): Option<nat> {
    ReadPercent(Trim(text), 2)
  }

  /** `replace(/0$/, '')`. */
  function DropTrailingZero(s: string): string {
    if s != [] && s[|s| - 1] == '0' then s[..|s| - 1] else s
  }

  function BasisPointsToPercent(bp: nat): string {
    var whole, frac := bp / 100, bp % 100;
    if frac == 0 then NatText(whole) else NatText(whole) + ("." + DropTrailingZero(PadStart(NatText(frac), 2)))
  }

  lemma {:induction false} TwoDigits(frac: nat)
    requires 0 < frac < 100
    ensures PadStart(NatText(frac), 2) == [DigitChar(frac / 10), DigitChar(frac % 10)]
  {
    var t := [DigitChar(frac / 10), DigitChar(frac % 10)];
    assert t[..1] == [DigitChar(frac / 10)];
    assert t[..1][..0] == [];
    assert ValueOf(t[..1]) == frac / 10;
    assert ValueOf(t) == frac;
    PaddedPrint(t);
  }

  lemma {:induction false} DroppedZeroPadsBack(a: char, b: char)
    requires IsDigit(a) && IsDigit(b)
    ensures var f := DropTrailingZero([a, b]);
            1 <= |f| <= 2 && AllDigits(f) && PadEnd(f, 2) == [a, b]
  {
    if b == '0' {
      assert [a, b][..1] == [a];
      assert Zeros(1) == "0";
      assert [a] + "0" == [a, b];
    }
  }

  /** The two-digit fraction without its trailing zero still denotes the same hundredths. */
  lemma {:induction false} HundredthsReadBack(frac: nat)
    requires 0 < frac < 100
    ensures var f := DropTrailingZero(PadStart(NatText(frac), 2));
            1 <= |f| <= 2 && AllDigits(f) && AllDigits(PadEnd(f, 2)) && ValueOf(PadEnd(f, 2)) == frac
  {
    TwoDigits(frac);
    DroppedZeroPadsBack(DigitChar(frac / 10), DigitChar(frac % 10));
    ValueOfPadStart(NatText(frac), 2);
    ValueOfNatText(frac);
  }

  function PercentDecimal(bp: nat): Decimal {
    Decimal(NatText(bp / 100), if bp % 100 == 0 then None else Some(DropTrailingZero(PadStart(NatText(bp % 100), 2))))
  }

  lemma {:induction false} PercentSource(bp: nat)
    ensures WellFormed(PercentDecimal(bp)) && DecimalSource(PercentDecimal(bp)) == BasisPointsToPercent(bp)
  {
    if bp % 100 != 0 {
      HundredthsReadBack(bp % 100);
    }
  }

  /** A printed percentage reads back as the same basis points, as long as its whole part fits the reader. */
  lemma {:induction false} PercentReadsBack(bp: nat, wholeDigits: nat)
    requires wholeDigits > 0
    ensures ReadPercent(BasisPointsToPercent(bp), wholeDigits) == if bp < 100 * Scale(1, wholeDigits) then Some(bp) else None
  {
    hide BasisPointsToPercent, ReadDecimal, DecimalSource, NatText, DropTrailingZero, PadStart, Scale;
    PercentSource(bp);
    ReadDecimalSource(PercentDecimal(bp));
    ValueOfNatText(bp / 100);
    NatTextLength(bp / 100, wholeDigits);
    if bp % 100 == 0 {
      ValueOfZeros(2);
      assert PadEnd("", 2) == Zeros(2);
    } else {
      HundredthsReadBack(bp % 100);
    }
  }

  lemma PercentTextTrimmed(bp: nat)
    ensures Trim(BasisPointsToPercent(bp)) == BasisPointsToPercent(bp)
  {
    if bp % 100 != 0 {
      TwoDigits(bp % 100);
    }
    TrimOfTrimmed(BasisPointsToPercent(bp));
  }

  /** The unsigned percentage codec loses nothing below 100 percent, and reads nothing from 100 percent on. */
  lemma PercentRoundTrip(bp: nat)
    ensures PercentToBasisPoints(BasisPointsToPercent(bp)) == if bp < 10_000 then Some(bp) else None
  {
    PercentTextTrimmed(bp);
    PercentReadsBack(bp, 2);
    assert Scale(1, 2) == 10 * Scale(1, 1) == 100;
  }

  function SignedPercentToBasisPoints(text: string): Option<int> {
    var t := Trim(text);
    var body := if t != [] && (t[0] == '+' || t[0] == '-') then t[1..] else t;
    var read := ReadPercent(body, 4);
    if read.None? then None
    else
      var bp: int := if t != [] && t[0] == '-' then -(read.value as int) else read.value;
      Some(bp)
  }

  function Abs(n: int): nat {
    if n < 0 then -n else n
  }

  function BasisPointsToSignedPercent(bp: int): string {
    (if bp < 0 then "-" else "") + BasisPointsToPercent(Abs(bp))
  }

  lemma {:induction false} PercentTextStartsWithDigit(bp: nat)
    ensures BasisPointsToPercent(bp) != [] && IsDigit(BasisPointsToPercent(bp)[0])
  {
  }

  /** The signed percentage codec is exact on plus or minus 9999.99 percent. */
  lemma SignedPercentRoundTrip(bp: int)
    ensures SignedPercentToBasisPoints(BasisPointsToSignedPercent(bp)) == if Abs(bp) < 1_000_000 then Some(bp) else None
  {
    hide BasisPointsToPercent, ReadPercent, Trim;
    PercentTextStartsWithDigit(Abs(bp));
    PercentTextTrimmed(Abs(bp));
    SignedTextParts(BasisPointsToPercent(Abs(bp)), bp < 0);
    PercentReadsBack(Abs(bp), 4);
    assert Scale(1, 4) == 10 * Scale(1, 3) == 100 * Scale(1, 2) == 10_000;
  }

  const FIXED_LIMIT: nat := 2_000_000_000

  function MinorToSignedMajor(minor: int, currency: string, digits: nat): string {
    (if minor < 0 then "-" else "") + MinorToMajorInput(NatText(Abs(minor)), currency, digits)
  }

  function SignedMajorToMinor(text: string, digits: nat): Option<int> {
    var t := Trim(text);
    var body := if t != [] && (t[0] == '+' || t[0] == '-') then t[1..] else t;
    var minor := ParseMajorToMinor(body, digits);
    if minor.None? || !AllDigits(minor.value) || ValueOf(minor.value) > FIXED_LIMIT then None
    else
      var value: int := if t != [] && t[0] == '-' then -(ValueOf(minor.value) as int) else ValueOf(minor.value);
      Some(value)
  }

  lemma {:induction false} DecimalTextStartsWithDigit(minor: nat, digits: nat)
    ensures DecimalText(minor, digits) != [] && IsDigit(DecimalText(minor, digits)[0])
  {
  }

  /** A leading sign is taken off before the amount is read. */
  lemma SignedTextParts(body: string, negative: bool)
    requires body != [] && IsDigit(body[0]) && Trim(body) == body
    ensures var t := (if negative then "-" else "") + body;
            && Trim(t) == t
            && (if t[0] == '+' || t[0] == '-' then t[1..] else t) == body
            && (t[0] == '-' <==> negative)
  {
    var t := (if negative then "-" else "") + body;
    TrimOfTrimmed(body);
    TrimOfTrimmed(t);
    if negative {
      assert t[1..] == body;
    } else {
      assert t == body;
    }
  }

  /** A fixed price adjustment survives the editor exactly up to its limit, in either direction. */
  lemma {:induction false} SignedMoneyRoundTrip(minor: int, currency: string, digits: nat)
    requires IsCurrencyCode(currency)
    ensures SignedMajorToMinor(MinorToSignedMajor(minor, currency, digits), digits)
         == if Abs(minor) <= FIXED_LIMIT then Some(minor) else None
  {
    hide DecimalText, ParseMajorToMinor, NatText, ValueOf, Trim;
    ValueOfNatText(Abs(minor));
    DecimalTextIsTrimmed(Abs(minor), digits);
    DecimalTextStartsWithDigit(Abs(minor), digits);
    SignedTextParts(DecimalText(Abs(minor), digits), minor < 0);
    ParseOfPrinted(Abs(minor), digits);
  }
}
