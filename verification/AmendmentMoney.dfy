/** Approving an amendment: the typed price, the recorded difference, and the net and markup. */
module AmendmentMoney {
  import opened Common
  import opened Text
  import opened Money
  import opened Amendment

  /** What `new Date(text)` makes of the typed deadline. */
  datatype Deadline = Blank | Unreadable | At(instant: int)

  datatype Form = Form(sell: string, net: string, deadline: Deadline)

  /** A net or a deadline that was not given, given as unknown, or given. */
  datatype Given<T> = Missing | Unknown | Value(value: T)

  /** The approval as it is sent, amounts as texts. */
  datatype Request = Request(sellMinor: string, netMinor: Given<string>, deadline: Given<Deadline>)

  datatype Approval = Approval(sellMinor: nat, netMinor: Given<nat>, deadline: Given<int>)

  /** `^\d{1,15}$`. */
  predicate IsMinorText(s: string) {
    1 <= |s| <= 15 && AllDigits(s)
  }

  function ReadDeadline(d: Given<Deadline>): Option<Given<int>> {
    match d
    case Missing => Some(Missing)
    case Unknown => Some(Unknown)
    case Value(At(instant)) => Some(Value(instant))
    case Value(_) => None
  }

  /** `validateAmendmentApproval`: a positive sell, a net no larger than it, a readable deadline; each of the last two optional. */
  method ValidateApproval(r: Request) returns (a: Option<Approval>)
    ensures a.Some? <==>
            && IsMinorText(r.sellMinor) && ValueOf(r.sellMinor) > 0
            && (r.netMinor.Value? ==> IsMinorText(r.netMinor.value) && ValueOf(r.netMinor.value) <= ValueOf(r.sellMinor))
            && ReadDeadline(r.deadline).Some?
    ensures a.Some? ==>
            && a.value.sellMinor == ValueOf(r.sellMinor)
            && (a.value.netMinor == match r.netMinor case Value(net) => Value(ValueOf(net)) case Missing => Missing case Unknown => Unknown)
            && Some(a.value.deadline) == ReadDeadline(r.deadline)
  {
    var issues := 0;
    var sell: Option<nat> := None;
    if !IsMinorText(r.sellMinor) || ValueOf(r.sellMinor) == 0 {
      issues := issues + 1;
    } else {
      sell := Some(ValueOf(r.sellMinor));
    }
    var net: Given<nat> := Missing;
    match r.netMinor {
      case Unknown => net := Unknown;
      case Missing =>
      case Value(text) =>
        if !IsMinorText(text) {
          issues := issues + 1;
        } else {
          net := Value(ValueOf(text));
          if sell.Some? && ValueOf(text) > sell.value {
            issues := issues + 1;
          }
        }
    }
    var deadline := ReadDeadline(r.deadline);
    if deadline.None? {
      issues := issues + 1;
    }
    if issues > 0 || sell.None? {
      return None;
    }
    a := Some(Approval(sell.value, net, deadline.value));
  }

  /** `buildApproval`: the texts a person typed, as a validated approval. A blank net is sent as unknown. */
  method BuildApproval(form: Form, digits: nat) returns (a: Option<Approval>)
    ensures a.Some? ==> Typed(form.sell, digits, a.value.sellMinor) && a.value.sellMinor > 0
    ensures a.Some? ==>
      if Trim(form.net) == "" then a.value.netMinor == Unknown
      else a.value.netMinor.Value? && Typed(form.net, digits, a.value.netMinor.value) && a.value.netMinor.value <= a.value.sellMinor
    ensures a.Some? <==>
            && (exists sell :: 0 < sell < Scale(1, 15) && Typed(form.sell, digits, sell)
                  && (Trim(form.net) == "" || exists net :: 0 <= net <= sell && Typed(form.net, digits, net)))
            && !form.deadline.Unreadable?
  {
    TypedSmall();
    var sell := ParseMajorToMinor(form.sell, digits);
    ParsedOnce(form.sell, digits);
    ParsedOnce(form.net, digits);
    if sell.None? || ValueOf(sell.value) == 0 {
      return None;
    }
    var net: Given<string> := Unknown;
    if Trim(form.net) != "" {
      var n := ParseMajorToMinor(form.net, digits);
      if n.None? {
        return None;
      }
      net := Value(n.value);
    }
    if form.deadline.Unreadable? {
      return None;
    }
    SmallText(ValueOf(sell.value));
    if net.Value? {
      SmallText(ValueOf(net.value));
    }
    a := ValidateApproval(Request(sell.value, net, if form.deadline.Blank? then Missing else Value(form.deadline)));
  }

  /** The text is exactly this many minor units: a plain decimal the currency can hold, nothing rounded. */
  predicate Typed(text: string, digits: nat, minor: nat) {
    ParseMajorToMinor(text, digits) == Some(NatText(minor))
  }

  lemma TypedSmall()
    ensures Scale(1, 15) == 1_000_000_000_000_000
  {
    assert Scale(1, 5) == 10 * Scale(1, 4) == 100 * Scale(1, 3) == 1000 * Scale(1, 2) == 10_000 * Scale(1, 1);
    ScaleTwice(1, 5, 5);
    ScaleTwice(1, 5, 10);
    assert Scale(100_000, 5) == 10 * Scale(100_000, 4) == 100 * Scale(100_000, 3) == 1000 * Scale(100_000, 2);
    assert Scale(100_000, 10) == 10 * Scale(100_000, 9);
    ScaleTwice(100_000, 5, 5);
    assert Scale(10_000_000_000, 5) == 10 * Scale(10_000_000_000, 4) == 100 * Scale(10_000_000_000, 3) == 1000 * Scale(10_000_000_000, 2);
  }

  lemma {:induction false} ParsedOnce(text: string, digits: nat)
    ensures ParseMajorToMinor(text, digits).Some? ==>
              && AllDigits(ParseMajorToMinor(text, digits).value)
              && Typed(text, digits, ValueOf(ParseMajorToMinor(text, digits).value))
              && forall n :: Typed(text, digits, n) ==> n == ValueOf(ParseMajorToMinor(text, digits).value)
  {
    var parsed := ParseMajorToMinor(text, digits);
    if parsed.Some? {
      var read := ReadDecimal(Trim(text)).value;
      ParseIsExact(text, digits, parsed.value);
      NatTextOfValue(parsed.value);
      forall n | Typed(text, digits, n)
        ensures n == ValueOf(parsed.value)
      {
        ValueOfNatText(n);
      }
    }
  }

  lemma SmallText(n: nat)
    ensures IsMinorText(NatText(n)) <==> n < Scale(1, 15)
    ensures ValueOf(NatText(n)) == n
  {
    NatTextLength(n, 15);
    ValueOfNatText(n);
  }

  // ----- what approving does to the money of a booking

  datatype Direction = Increase | Decrease | Same

  datatype Difference = Difference(text: string, direction: Direction)

  /** `amendmentDifference`. */
  function AmendmentDifference(oldSell: int, newSell: int): Difference {
    var d := newSell - oldSell;
    Difference(IntText(d), if d > 0 then Increase else if d < 0 then Decrease else Same)
  }

  /** The amounts a booking carries; an absent net or markup is unknown. */
  datatype Amounts = Amounts(total: nat, net: Option<nat>, markup: Option<int>)

  /** `amendedNetAndMarkup`, with the new total. */
  function Amended(a: Approval): Amounts {
    if a.netMinor.Value? then Amounts(a.sellMinor, Some(a.netMinor.value), Some(a.sellMinor - a.netMinor.value))
    else Amounts(a.sellMinor, None, None)
  }

  /** `amendedCancelDeadline`: a recorded deadline wins, otherwise moving the stay makes it unknown. */
  function AmendedDeadline(current: Option<int>, changes: seq<Change>, recorded: Given<int>): Option<int> {
    match recorded
    case Value(instant) => Some(instant)
    case Unknown => None
    case Missing => if StayDates in changes then None else current
  }

  predicate Consistent(m: Amounts) {
    && m.net.Some? == m.markup.Some?
    && (m.net.Some? ==> m.net.value + m.markup.value == m.total && m.markup.value >= 0)
  }

  predicate ApprovalOk(a: Approval) {
    a.sellMinor > 0 && (a.netMinor.Value? ==> a.netMinor.value <= a.sellMinor)
  }

  /** The money facts recorded for Finance: one for each approval whose price differs. */
  function Facts(before: Amounts, approvals: seq<Approval>): seq<int> {
    if approvals == [] then []
    else
      var last := approvals[|approvals| - 1];
      var d := last.sellMinor - After(before, approvals[..|approvals| - 1]).total;
      Facts(before, approvals[..|approvals| - 1]) + if d != 0 then [d] else []
  }

  function After(before: Amounts, approvals: seq<Approval>): Amounts {
    if approvals == [] then before else Amended(approvals[|approvals| - 1])
  }

  function Sum(ns: seq<int>): int {
    if ns == [] then 0 else Sum(ns[..|ns| - 1]) + ns[|ns| - 1]
  }

  lemma {:induction false} SumAppend(a: seq<int>, d: int)
    ensures Sum(a + [d]) == Sum(a) + d
  {
    assert (a + [d])[..|a|] == a;
  }

  lemma {:induction false} FactsSum(before: Amounts, approvals: seq<Approval>)
    ensures before.total + Sum(Facts(before, approvals)) == After(before, approvals).total
    ensures forall d | d in Facts(before, approvals) :: d != 0
  {
    if approvals != [] {
      var front := approvals[..|approvals| - 1];
      FactsSum(before, front);
      var d := approvals[|approvals| - 1].sellMinor - After(before, front).total;
      SumAppend(Facts(before, front), d);
      assert Facts(before, front) + [] == Facts(before, front);
    }
  }

  /**
   * Over any series of approvals the recorded facts add up to what the price really moved, and none of them is zero; so after
   * valid approvals a known net and markup, neither negative, are together the first price moved by the recorded facts.
   */
  lemma {:induction false} FactsAddUp(before: Amounts, approvals: seq<Approval>)
    ensures before.total + Sum(Facts(before, approvals)) == After(before, approvals).total
    ensures forall d | d in Facts(before, approvals) :: d != 0
    ensures Consistent(before) && (forall i | 0 <= i < |approvals| :: ApprovalOk(approvals[i])) ==>
              var m := After(before, approvals);
              && (m.net.Some? <==> m.markup.Some?)
              && (m.net.Some? ==> m.markup.value >= 0 && m.net.value + m.markup.value == before.total + Sum(Facts(before, approvals)))
  {
    FactsSum(before, approvals);
    hide Facts, Sum;
  }

  // ----- the free-cancellation deadline over a series of approvals

  /** What one approval says about the deadline: what it changes, and the deadline it records. */
  datatype Decision = Decision(changes: seq<Change>, recorded: Given<int>)

  function DeadlineAfter(current: Option<int>, decisions: seq<Decision>): Option<int> {
    if decisions == [] then current
    else
      var last := decisions[|decisions| - 1];
      AmendedDeadline(DeadlineAfter(current, decisions[..|decisions| - 1]), last.changes, last.recorded)
  }

  /** The approval records a deadline, or moves the stay. */
  predicate Speaks(d: Decision) {
    !d.recorded.Missing? || StayDates in d.changes
  }

  /** While no approval speaks of it, the deadline stands. */
  lemma {:induction false} SilentDecisions(current: Option<int>, decisions: seq<Decision>)
    ensures (forall j | 0 <= j < |decisions| :: !Speaks(decisions[j])) ==> DeadlineAfter(current, decisions) == current
  {
    if decisions != [] {
      var n := |decisions| - 1;
      SilentDecisions(current, decisions[..n]);
      assert forall j | 0 <= j < n :: decisions[..n][j] == decisions[j];
    }
  }

  /**
   * The deadline is that of the last approval that spoke of it: what it recorded, and unknown where it moved the stay without
   * recording one. An earlier deadline never comes back.
   */
  lemma {:induction false} DeadlineIsTheLastWord(current: Option<int>, decisions: seq<Decision>, k: nat)
    requires k < |decisions| && Speaks(decisions[k]) && forall j | k < j < |decisions| :: !Speaks(decisions[j])
    ensures DeadlineAfter(current, decisions) == if decisions[k].recorded.Value? then Some(decisions[k].recorded.value) else None
  {
    var n := |decisions| - 1;
    if k < n {
      assert forall j | 0 <= j < n :: decisions[..n][j] == decisions[j];
      DeadlineIsTheLastWord(current, decisions[..n], k);
    }
  }

  /** The printed difference is the exact signed amount, and its direction is its sign. */
  lemma {:induction false} DifferenceIsExact(oldSell: int, newSell: int)
    ensures var d := AmendmentDifference(oldSell, newSell);
            && IsSignedDigits(d.text)
            && oldSell + (if IsNegativeText(d.text) then -(ValueOf(Magnitude(d.text)) as int) else ValueOf(Magnitude(d.text))) == newSell
            && (IsNegativeText(d.text) <==> d.direction == Decrease)
            && (d.direction == Same <==> oldSell == newSell)
  {
    var n := newSell - oldSell;
    ValueOfNatText(if n < 0 then -n else n);
    assert n < 0 ==> IntText(n)[1..] == NatText(-n);
    NatTextCanonical(if n < 0 then -n else n);
  }
}
