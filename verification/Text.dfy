/**
 * Strings as the source language treats them: digit texts and their values, decimal powers without multiplication, padding,
 * trimming, splitting and joining, and letter case. The lemmas say what each reader gets from what the matching printer wrote;
 * the codecs of the other modules are built from them.
 */
module Text {
  import opened Common

  // ----- decimal digits

  predicate IsDigit(c: char) {
    '0' <= c <= '9'
  }

  predicate AllDigits(s: string) {
    forall i | 0 <= i < |s| :: IsDigit(s[i])
  }

  function DigitValue(c: char): (v: nat)
    requires IsDigit(c)
    ensures v < 10
  {
    c as int - '0' as int
  }

  function DigitChar(d: nat): (c: char)
    requires d < 10
    ensures IsDigit(c) && DigitValue(c) == d
  {
    (d + '0' as int) as char
  }

  /** `n * 10^k`, one digit at a time. */
  function Scale(n: nat, k: nat): nat {
    if k == 0 then n else 10 * Scale(n, k - 1)
  }

  /** `n / 10^k` rounded down, one digit at a time. */
  function Quotient(n: nat, k: nat): nat {
    if k == 0 then n else Quotient(n / 10, k - 1)
  }

  /** `n % 10^k`. */
  function Remainder(n: nat, k: nat): nat {
    if k == 0 then 0 else 10 * Remainder(n / 10, k - 1) + n % 10
  }

  lemma {:induction false} ScaleAdds(a: nat, b: nat, k: nat)
    ensures Scale(a + b, k) == Scale(a, k) + Scale(b, k)
  {
    if k != 0 {
      ScaleAdds(a, b, k - 1);
    }
  }

  lemma {:induction false} ScaleTwice(n: nat, j: nat, k: nat)
    ensures Scale(Scale(n, j), k) == Scale(n, j + k)
  {
    if k != 0 {
      ScaleTwice(n, j, k - 1);
      assert Scale(n, j + k) == 10 * Scale(n, j + k - 1);
    }
  }

  lemma {:induction false} ScaleOrders(a: nat, b: nat, k: nat)
    ensures a < b <==> Scale(a, k) < Scale(b, k)
  {
    if k != 0 {
      ScaleOrders(a, b, k - 1);
    }
  }

  lemma ScaleInjective(a: nat, b: nat, k: nat)
    requires Scale(a, k) == Scale(b, k)
    ensures a == b
  {
    ScaleOrders(a, b, k);
    ScaleOrders(b, a, k);
  }

  /** Quotient and remainder are those of the division by `10^k`. */
  lemma {:induction false} DivisionByPower(n: nat, k: nat)
    ensures n == Scale(Quotient(n, k), k) + Remainder(n, k)
    ensures Remainder(n, k) < Scale(1, k)
  {
    if k != 0 {
      DivisionByPower(n / 10, k - 1);
    }
  }

  /** They are the only numbers with that property. */
  lemma DivisionUnique(n: nat, k: nat, q: nat, r: nat)
    requires n == Scale(q, k) + r && r < Scale(1, k)
    ensures Quotient(n, k) == q && Remainder(n, k) == r
  {
    DivisionByPower(n, k);
    var q' := Quotient(n, k);
    if q < q' {
      ScaleAdds(q, q' - q, k);
      ScaleOrders(q' - q, 1, k);
    } else if q' < q {
      ScaleAdds(q', q - q', k);
      ScaleOrders(q - q', 1, k);
    }
  }

  /** The number a digit string denotes, leading zeros allowed; the empty string denotes zero. */
  function ValueOf(s: string): nat
    requires AllDigits(s)
  {
    if s == [] then 0 else 10 * ValueOf(s[..|s| - 1]) + DigitValue(s[|s| - 1])
  }

  /** The canonical decimal text of a natural number (`toString`). */
  function NatText(n: nat): (s: string)
    ensures s != [] && AllDigits(s)
  {
    if n < 10 then [DigitChar(n)] else NatText(n / 10) + [DigitChar(n % 10)]
  }

  function IntText(n: int): string {
    if n < 0 then "-" + NatText(-n) else NatText(n)
  }

  /** No leading zero, except the single digit 0. */
  predicate Canonical(s: string) {
    && s != []
    && AllDigits(s)
    && (|s| == 1 || s[0] != '0')
  }

  lemma {:induction false} ValueOfNatText(n: nat)
    ensures ValueOf(NatText(n)) == n
  {
    if n >= 10 {
      ValueOfNatText(n / 10);
      assert NatText(n)[..|NatText(n)| - 1] == NatText(n / 10);
    }
  }

  lemma {:induction false} NatTextCanonical(n: nat)
    ensures Canonical(NatText(n))
    ensures NatText(n)[0] == '0' <==> n == 0
  {
    if n >= 10 {
      NatTextCanonical(n / 10);
    }
  }

  lemma {:induction false} ValueOfPositive(s: string)
    requires AllDigits(s) && s != [] && s[0] != '0'
    ensures ValueOf(s) > 0
  {
    if |s| > 1 {
      ValueOfPositive(s[..|s| - 1]);
    }
  }

  /** Printing undoes reading exactly on canonical digit strings. */
  lemma {:induction false} NatTextOfValue(s: string)
    requires Canonical(s)
    ensures NatText(ValueOf(s)) == s
  {
    if |s| > 1 {
      var front := s[..|s| - 1];
      ValueOfPositive(front);
      NatTextOfValue(front);
      assert ValueOf(s) / 10 == ValueOf(front) && ValueOf(s) % 10 == DigitValue(s[|s| - 1]);
      assert s == front + [s[|s| - 1]];
    }
  }

  lemma {:induction false} ValueAppend(a: string, b: string)
    requires AllDigits(a) && AllDigits(b)
    ensures AllDigits(a + b)
    ensures ValueOf(a + b) == Scale(ValueOf(a), |b|) + ValueOf(b)
  {
    if b == [] {
      assert a + b == a;
    } else {
      var front := b[..|b| - 1];
      assert (a + b)[..|a + b| - 1] == a + front;
      ValueAppend(a, front);
    }
  }

  lemma {:induction false} ValueBound(s: string)
    requires AllDigits(s)
    ensures ValueOf(s) < Scale(1, |s|)
  {
    if s != [] {
      ValueBound(s[..|s| - 1]);
    }
  }

  lemma {:induction false} ValueInjective(s: string, t: string)
    requires AllDigits(s) && AllDigits(t) && |s| == |t|
    requires ValueOf(s) == ValueOf(t)
    ensures s == t
  {
    if s != [] {
      var i := |s| - 1;
      assert DigitValue(s[i]) == ValueOf(s) % 10 == ValueOf(t) % 10 == DigitValue(t[i]);
      ValueInjective(s[..i], t[..i]);
      assert s == s[..i] + [s[i]] && t == t[..i] + [t[i]];
    }
  }

  function Zeros(n: nat): (s: string)
    ensures |s| == n && AllDigits(s)
    ensures forall i | 0 <= i < n :: s[i] == '0'
  {
    if n == 0 then "" else Zeros(n - 1) + "0"
  }

  lemma {:induction false} ValueOfZeros(n: nat)
    ensures ValueOf(Zeros(n)) == 0
  {
    if n != 0 {
      ValueOfZeros(n - 1);
      assert Zeros(n)[..n - 1] == Zeros(n - 1);
    }
  }

  lemma {:induction false} ScaleZero(k: nat)
    ensures Scale(0, k) == 0
  {
    if k != 0 {
      ScaleZero(k - 1);
    }
  }

  /** `padStart(width, '0')`. */
  function PadStart(s: string, width: nat): (r: string)
    ensures |r| == if |s| < width then width else |s|
    ensures AllDigits(s) ==> AllDigits(r)
  {
    if |s| < width then Zeros(width - |s|) + s else s
  }

  lemma {:induction false} ValueOfPadStart(s: string, width: nat)
    requires AllDigits(s)
    ensures ValueOf(PadStart(s, width)) == ValueOf(s)
  {
    if |s| < width {
      var zeros := Zeros(width - |s|);
      ValueOfZeros(width - |s|);
      ValueAppend(zeros, s);
      ScaleZero(|s|);
    }
  }

  lemma {:induction false} NatTextLength(n: nat, digits: nat)
    requires digits > 0
    ensures |NatText(n)| <= digits <==> n < Scale(1, digits)
  {
    if digits == 1 {
      assert Scale(1, 1) == 10;
    } else if n >= 10 {
      NatTextLength(n / 10, digits - 1);
    } else {
      ScaleOrders(0, 1, digits - 1);
      ScaleZero(digits - 1);
    }
  }

  /** A digit string of a given width is the padded print of its value. */
  lemma PaddedPrint(s: string)
    requires AllDigits(s) && s != []
    ensures PadStart(NatText(ValueOf(s)), |s|) == s
  {
    ValueBound(s);
    NatTextLength(ValueOf(s), |s|);
    ValueOfPadStart(NatText(ValueOf(s)), |s|);
    ValueOfNatText(ValueOf(s));
    ValueInjective(PadStart(NatText(ValueOf(s)), |s|), s);
  }

  // ----- white space

  /** The characters that `trim` and `\s` treat as white space. */
  predicate IsSpace(c: char) {
    || '\U{0009}' <= c <= '\U{000D}'
    || c == ' '
    || c == '\U{00A0}'
    || c == '\U{1680}'
    || '\U{2000}' <= c <= '\U{200A}'
    || c == '\U{2028}'
    || c == '\U{2029}'
    || c == '\U{202F}'
    || c == '\U{205F}'
    || c == '\U{3000}'
    || c == '\U{FEFF}'
  }

  function TrimStart(s: string): string {
    if s != [] && IsSpace(s[0]) then TrimStart(s[1..]) else s
  }

  function TrimEnd(s: string): string {
    if s != [] && IsSpace(s[|s| - 1]) then TrimEnd(s[..|s| - 1]) else s
  }

  function Trim(s: string): string {
    TrimEnd(TrimStart(s))
  }

  /** No white space at either end. */
  predicate Trimmed(s: string) {
    s != [] ==> !IsSpace(s[0]) && !IsSpace(s[|s| - 1])
  }

  lemma {:induction false} TrimStartIsSuffix(s: string)
    ensures exists k :: 0 <= k <= |s| && TrimStart(s) == s[k..]
    ensures TrimStart(s) != [] ==> !IsSpace(TrimStart(s)[0])
  {
    if s != [] && IsSpace(s[0]) {
      TrimStartIsSuffix(s[1..]);
      var k :| 0 <= k <= |s[1..]| && TrimStart(s[1..]) == s[1..][k..];
      assert s[1..][k..] == s[k + 1..];
    } else {
      assert s == s[0..];
    }
  }

  lemma {:induction false} TrimEndIsPrefix(s: string)
    ensures exists k :: 0 <= k <= |s| && TrimEnd(s) == s[..k]
    ensures TrimEnd(s) != [] ==> !IsSpace(TrimEnd(s)[|TrimEnd(s)| - 1])
  {
    if s != [] && IsSpace(s[|s| - 1]) {
      TrimEndIsPrefix(s[..|s| - 1]);
      var k :| 0 <= k <= |s[..|s| - 1]| && TrimEnd(s[..|s| - 1]) == s[..|s| - 1][..k];
      assert s[..|s| - 1][..k] == s[..k];
    } else {
      assert s == s[..|s|];
    }
  }

  /** Trimming removes a prefix and a suffix, and leaves no white space at either end. */
  lemma TrimShape(s: string) returns (i: nat, j: nat)
    ensures i <= j <= |s| && Trim(s) == s[i..j] && Trimmed(Trim(s))
  {
    TrimStartIsSuffix(s);
    var k :| 0 <= k <= |s| && TrimStart(s) == s[k..];
    TrimEndIsPrefix(s[k..]);
    var m :| 0 <= m <= |s[k..]| && TrimEnd(s[k..]) == s[k..][..m];
    i, j := k, k + m;
    assert s[k..][..m] == s[i..j];
  }

  lemma TrimOfTrimmed(s: string)
    ensures Trim(s) == s <==> Trimmed(s)
  {
    if Trim(s) == s {
      var i, j := TrimShape(s);
    }
  }

  lemma TrimIdempotent(s: string)
    ensures Trim(Trim(s)) == Trim(s)
  {
    var i, j := TrimShape(s);
    TrimOfTrimmed(Trim(s));
  }

  lemma TrimNothing()
    ensures Trim("") == ""
  {
  }

  lemma TrimmedAround(a: string, d: char, b: string)
    requires Trimmed(a) && Trimmed(b) && !IsSpace(d)
    ensures Trimmed(a + ([d] + b))
  {
    var s := a + ([d] + b);
    assert s[0] == (if a == "" then d else a[0]);
    assert s[|s| - 1] == (if b == "" then d else b[|b| - 1]);
  }

  lemma DigitsAreTrimmed(s: string)
    requires AllDigits(s)
    ensures Trim(s) == s
  {
    TrimOfTrimmed(s);
  }

  // ----- splitting and joining

  /** `split` at a single character. */
  function Split(s: string, sep: char): (r: seq<string>)
    ensures |r| >= 1
  {
    if s == [] then [""]
    else
      var rest := Split(s[1..], sep);
      if s[0] == sep then [""] + rest else [[s[0]] + rest[0]] + rest[1..]
  }

  function Join(parts: seq<string>, sep: string): string {
    if parts == [] then ""
    else if |parts| == 1 then parts[0]
    else parts[0] + sep + Join(parts[1..], sep)
  }

  lemma {:induction false} SplitWithout(s: string, sep: char)
    requires sep !in s
    ensures Split(s, sep) == [s]
  {
    if s != [] {
      SplitWithout(s[1..], sep);
      assert [s[0]] + s[1..] == s;
    }
  }

  lemma {:induction false} SplitAfter(a: string, b: string, sep: char)
    requires sep !in a
    ensures Split(a + [sep] + b, sep) == [a] + Split(b, sep)
  {
    var t := a + [sep] + b;
    if a == [] {
      assert t[1..] == b;
    } else {
      assert t[1..] == a[1..] + [sep] + b;
      SplitAfter(a[1..], b, sep);
      assert [a[0]] + a[1..] == a;
    }
  }

  /** Splitting a join at the separator gives the parts back. */
  lemma {:induction false} SplitJoin(parts: seq<string>, sep: char)
    requires parts != []
    requires forall i | 0 <= i < |parts| :: sep !in parts[i]
    ensures Split(Join(parts, [sep]), sep) == parts
  {
    if |parts| == 1 {
      SplitWithout(parts[0], sep);
    } else {
      SplitJoin(parts[1..], sep);
      SplitAfter(parts[0], Join(parts[1..], [sep]), sep);
      assert parts == [parts[0]] + parts[1..];
    }
  }

  predicate OneLine(s: string) {
    '\r' !in s && '\n' !in s
  }

  lemma {:induction false} JoinWithLast(lines: seq<string>, end: string)
    requires lines != []
    ensures Join(lines + [""], end) == Join(lines, end) + end
  {
    if |lines| == 1 {
      assert (lines + [""])[1..] == [""];
    } else {
      JoinWithLast(lines[1..], end);
      assert (lines + [""])[1..] == lines[1..] + [""];
    }
  }

  lemma {:induction false} MapTrimmed(lines: seq<string>)
    requires forall i | 0 <= i < |lines| :: Trimmed(lines[i])
    ensures Map(Trim, lines) == lines
  {
    forall i | 0 <= i < |lines|
      ensures Trim(lines[i]) == lines[i]
    {
      TrimOfTrimmed(lines[i]);
    }
  }

  lemma SplitFirst(c: char, rest: string, sep: char)
    ensures Split([c] + rest, sep) == (if c == sep then [""] + Split(rest, sep) else [[c] + Split(rest, sep)[0]] + Split(rest, sep)[1..])
  {
    assert ([c] + rest)[1..] == rest;
  }

  lemma {:induction false} NatTextInjective(m: nat, n: nat)
    requires NatText(m) == NatText(n)
    ensures m == n
  {
    ValueOfNatText(m);
    ValueOfNatText(n);
  }

  /** The text before the first `c`, or all of it. */
  function TextBefore(s: string, c: char): string {
    if s == [] || s[0] == c then [] else [s[0]] + TextBefore(s[1..], c)
  }

  lemma {:induction false} TextBeforeOf(a: string, tail: string, c: char)
    requires c !in a && (tail == "" || tail[0] == c)
    ensures TextBefore(a + tail, c) == a
  {
    if a == [] {
      assert a + tail == tail;
    } else {
      assert (a + tail)[1..] == a[1..] + tail;
      TextBeforeOf(a[1..], tail, c);
    }
  }

  /** The text after the last `c`, or all of it. */
  function TextAfterLast(s: string, c: char): string {
    if s == [] || s[|s| - 1] == c then [] else TextAfterLast(s[..|s| - 1], c) + [s[|s| - 1]]
  }

  lemma {:induction false} TextAfterLastOf(head: string, a: string, c: char)
    requires c !in a && (head == "" || head[|head| - 1] == c)
    ensures TextAfterLast(head + a, c) == a
  {
    if a == [] {
      assert head + a == head;
    } else {
      var front := a[..|a| - 1];
      assert (head + a)[..|head + a| - 1] == head + front;
      TextAfterLastOf(head, front, c);
      assert front + [a[|a| - 1]] == a;
    }
  }

  predicate StartsWith(s: string, prefix: string) {
    prefix <= s
  }

  predicate EndsWith(s: string, suffix: string) {
    |suffix| <= |s| && s[|s| - |suffix|..] == suffix
  }

  // ----- letter case (ASCII letters)

  function UpperChar(c: char): char {
    if 'a' <= c <= 'z' then (c as int - 32) as char else c
  }

  function LowerChar(c: char): char {
    if 'A' <= c <= 'Z' then (c as int + 32) as char else c
  }

  function Upper(s: string): string {
    Map(UpperChar, s)
  }

  function Lower(s: string): string {
    Map(LowerChar, s)
  }

  predicate UpperLetters(s: string) {
    forall i | 0 <= i < |s| :: 'A' <= s[i] <= 'Z'
  }
}
