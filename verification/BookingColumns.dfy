/**
 * The column layout of the bookings list: restoring a stored one, moving and hiding columns. A stored value can be anything;
 * what is restored is a layout with Booking # first, Actions last and no column twice, and every run of moves and toggles keeps
 * it one. Any order of the middle columns can be reached by moves.
 */
module BookingColumns {
  import opened Common

  datatype Column = Reference | Status | Agency | Supplier | Guest | Hotel | Stay | Booked | Deadline | Amount | Actions

  const ALL: seq<Column> := [Reference, Status, Agency, Supplier, Guest, Hotel, Stay, Booked, Deadline, Amount, Actions]

  predicate Required(c: Column) {
    c == Reference || c == Actions
  }

  /** Booking # first, Actions last, no column twice. */
  predicate Layout(cs: seq<Column>) {
    |cs| >= 2 && cs[0] == Reference && cs[|cs| - 1] == Actions && Distinct(cs)
  }

  function IndexOf(cs: seq<Column>, c: Column): (r: int)
    ensures -1 <= r < |cs| && (r == -1 <==> c !in cs) && (r >= 0 ==> cs[r] == c)
  {
    if cs == [] then -1
    else if cs[0] == c then 0
    else
      var rest := IndexOf(cs[1..], c);
      if rest < 0 then -1 else rest + 1
  }

  function Swapped(cs: seq<Column>, i: nat, j: nat): (r: seq<Column>)
    requires i < |cs| && j < |cs|
    ensures |r| == |cs| && r[i] == cs[j] && r[j] == cs[i]
    ensures forall k | 0 <= k < |cs| && k != i && k != j :: r[k] == cs[k]
  {
    cs[i := cs[j]][j := cs[i]]
  }

  datatype Step = Left(column: Column) | Right(column: Column) | Toggle(column: Column)

  /** `moveColumn`; the direction is -1 or 1. */
  function Move(cs: seq<Column>, c: Column, direction: int): (r: seq<Column>)
    requires direction == -1 || direction == 1
    ensures |r| == |cs|
  {
    var index := IndexOf(cs, c);
    var target := index + direction;
    if index < 0 || Required(c) || target < 1 || target > |cs| - 2 then cs else Swapped(cs, index, target)
  }

  /** `toggleColumn`; a new column goes in front of the last one. */
  function Toggled(cs: seq<Column>, c: Column): seq<Column> {
    if Required(c) then cs
    else if c in cs then Filter((x: Column) => x != c, cs)
    else if cs == [] then [c]
    else cs[..|cs| - 1] + [c] + cs[|cs| - 1..]
  }

  function Next(cs: seq<Column>, step: Step): seq<Column> {
    match step
    case Left(c) => Move(cs, c, -1)
    case Right(c) => Move(cs, c, 1)
    case Toggle(c) => Toggled(cs, c)
  }

  function Run(cs: seq<Column>, steps: seq<Step>): seq<Column>
    decreases |steps|
  {
    if steps == [] then cs else Run(Next(cs, steps[0]), steps[1..])
  }

  // ----- restoring

  /** The known columns of a stored list, each where it came first; `None` stands for anything that is not a column. */
  function FirstOnce(stored: seq<Option<Column>>): seq<Column> {
    if stored == [] then []
    else
      var before, last := FirstOnce(stored[..|stored| - 1]), stored[|stored| - 1];
      if last.Some? && last.value !in before then before + [last.value] else before
  }

  predicate Middle(c: Column) {
    !Required(c)
  }

  function Normal(stored: Option<seq<Option<Column>>>): seq<Column> {
    if stored.None? then ALL else [Reference] + Filter(Middle, FirstOnce(stored.value)) + [Actions]
  }

  /** `normalizeColumns`; `None` is a value that is not a list. */
  method NormalizeColumns(stored: Option<seq<Option<Column>>>) returns (cs: seq<Column>)
    ensures cs == Normal(stored)
  {
    if stored.None? {
      return ALL;
    }
    var seen, list := {}, [];
    for i := 0 to |stored.value|
      invariant list == FirstOnce(stored.value[..i])
      invariant forall c :: c in seen <==> c in list
    {
      assert stored.value[..i + 1][..i] == stored.value[..i];
      var v := stored.value[i];
      if v.Some? && v.value !in seen {
        seen := seen + {v.value};
        list := list + [v.value];
      }
    }
    assert stored.value[..|stored.value|] == stored.value;
    ghost var kept := list;
    if Reference !in list {
      list := list + [Reference];
    }
    if Actions !in list {
      list := list + [Actions];
    }
    AppendedAreDropped(kept, list);
    cs := [Reference] + Filter(Middle, list) + [Actions];
  }

  /** The required columns that are pushed on the list are taken out of the middle again. */
  lemma AppendedAreDropped(kept: seq<Column>, list: seq<Column>)
    requires list == kept || list == kept + [Reference] || list == kept + [Actions] || list == kept + [Reference] + [Actions]
    ensures Filter(Middle, list) == Filter(Middle, kept)
  {
    RequiredDropped(kept, Reference);
    RequiredDropped(kept, Actions);
    RequiredDropped(kept + [Reference], Actions);
  }

  lemma RequiredDropped(cs: seq<Column>, c: Column)
    requires Required(c)
    ensures Filter(Middle, cs + [c]) == Filter(Middle, cs)
  {
    FilterAppend(Middle, cs, [c]);
    assert Filter(Middle, [c]) == [];
  }

  lemma {:induction false} FirstOnceDistinct(stored: seq<Option<Column>>)
    ensures Distinct(FirstOnce(stored))
  {
    if stored != [] {
      FirstOnceDistinct(stored[..|stored| - 1]);
    }
  }

  lemma {:induction false} BetweenTheEnds(middle: seq<Column>)
    requires Distinct(middle) && forall i | 0 <= i < |middle| :: !Required(middle[i])
    ensures Layout([Reference] + middle + [Actions])
  {
  }

  /** Whatever was stored, a layout is restored; and a layout that was stored is restored as it is. */
  lemma {:induction false} RestoredIsALayout(stored: Option<seq<Option<Column>>>)
    ensures Layout(Normal(stored))
  {
    if stored.Some? {
      var middle := Filter(Middle, FirstOnce(stored.value));
      FirstOnceDistinct(stored.value);
      FilterDistinct(Middle, FirstOnce(stored.value));
      forall i | 0 <= i < |middle|
        ensures !Required(middle[i])
      {
        FilterMembers(Middle, FirstOnce(stored.value), middle[i]);
      }
      BetweenTheEnds(middle);
    }
  }

  function Stored(cs: seq<Column>): seq<Option<Column>> {
    Map((c: Column) => Some(c), cs)
  }

  lemma {:induction false} FirstOnceOfDistinct(cs: seq<Column>)
    requires Distinct(cs)
    ensures FirstOnce(Stored(cs)) == cs
  {
    if cs == [] {
    } else {
      var n := |cs| - 1;
      FirstOnceOfDistinct(cs[..n]);
      assert Stored(cs)[..n] == Stored(cs[..n]);
      assert cs[..n] + [cs[n]] == cs;
    }
  }

  lemma {:induction false} LayoutIsRestored(cs: seq<Column>)
    requires Layout(cs)
    ensures Normal(Some(Stored(cs))) == cs
  {
    FirstOnceOfDistinct(cs);
    var middle := cs[1..|cs| - 1];
    assert cs == [Reference] + middle + [Actions];
    RequiredDropped([Reference] + middle, Actions);
    FilterCons(Middle, Reference, middle);
    FilterAll(Middle, middle);
  }

  // ----- every run

  lemma {:induction false} SwappedDistinct(cs: seq<Column>, i: nat, j: nat)
    requires i < |cs| && j < |cs| && Distinct(cs)
    ensures Distinct(Swapped(cs, i, j))
  {
  }

  /** The two places that a move exchanges lie between the ends. */
  lemma SwapKeepsTheLayout(cs: seq<Column>, i: nat, j: nat)
    requires Layout(cs) && 1 <= i <= |cs| - 2 && 1 <= j <= |cs| - 2
    ensures Layout(Swapped(cs, i, j))
  {
    SwappedDistinct(cs, i, j);
    hide Swapped, Distinct;
  }

  lemma {:induction false} MoveIsALayout(cs: seq<Column>, c: Column, direction: int)
    requires Layout(cs) && (direction == -1 || direction == 1)
    ensures Layout(Move(cs, c, direction))
  {
    var i := IndexOf(cs, c);
    EndsAreRequired(cs);
    hide Layout, IndexOf, Swapped;
    if Move(cs, c, direction) != cs {
      SwapKeepsTheLayout(cs, i, i + direction);
    }
  }

  lemma EndsAreRequired(cs: seq<Column>)
    requires Layout(cs)
    ensures |cs| >= 2 && Distinct(cs) && forall i | 0 <= i < |cs| :: Required(cs[i]) <==> i == 0 || i == |cs| - 1
  {
  }

  lemma {:induction false} NextIsALayout(cs: seq<Column>, step: Step)
    requires Layout(cs)
    ensures Layout(Next(cs, step))
  {
    hide Layout, Move;
    match step
    case Toggle(c) => ToggledIsALayout(cs, c);
    case Left(c) => MoveIsALayout(cs, c, -1);
    case Right(c) => MoveIsALayout(cs, c, 1);
  }

  lemma {:induction false} ToggledIsALayout(cs: seq<Column>, c: Column)
    requires Layout(cs)
    ensures Layout(Toggled(cs, c))
  {
    if !Required(c) && c in cs {
      HiddenIsALayout(cs, c);
    }
  }

  lemma {:induction false} HiddenIsALayout(cs: seq<Column>, c: Column)
    requires Layout(cs) && !Required(c)
    ensures Layout(Filter((x: Column) => x != c, cs))
  {
    var keep := (x: Column) => x != c;
    var middle := cs[1..|cs| - 1];
    assert cs == [Reference] + middle + [Actions];
    FilterAppend(keep, [Reference] + middle, [Actions]);
    FilterAppend(keep, [Reference], middle);
    var kept := Filter(keep, middle);
    FilterDistinct(keep, middle);
    forall i | 0 <= i < |kept|
      ensures !Required(kept[i])
    {
      FilterMembers(keep, middle, kept[i]);
    }
    BetweenTheEnds(kept);
  }

  /** Every run of moves and toggles from a restored layout keeps it a layout. */
  lemma {:induction false} EveryRun(cs: seq<Column>, steps: seq<Step>)
    requires Layout(cs)
    ensures Layout(Run(cs, steps))
    decreases |steps|
  {
    if steps != [] {
      NextIsALayout(cs, steps[0]);
      EveryRun(Next(cs, steps[0]), steps[1..]);
    }
  }

  lemma IndexIsUnique(cs: seq<Column>, i: nat)
    requires Distinct(cs) && i < |cs|
    ensures IndexOf(cs, cs[i]) == i
  {
  }

  /** A column between the ends moves by one place. */
  lemma {:induction false} MovesOnePlace(cs: seq<Column>, i: nat, direction: int)
    requires Layout(cs) && (direction == -1 || direction == 1) && 1 <= i <= |cs| - 2 && 1 <= i + direction <= |cs| - 2
    ensures Move(cs, cs[i], direction) == Swapped(cs, i, i + direction)
  {
    EndsAreRequired(cs);
    IndexIsUnique(cs, i);
    hide Layout, Distinct, IndexOf, Swapped, Required;
  }

  lemma SwappedTwice(cs: seq<Column>, i: nat, j: nat)
    requires i < |cs| && j < |cs|
    ensures Swapped(Swapped(cs, i, j), j, i) == cs
  {
  }

  lemma MoveIsASwap(cs: seq<Column>, c: Column, direction: int)
    requires Layout(cs) && (direction == -1 || direction == 1) && Move(cs, c, direction) != cs
    ensures var i := IndexOf(cs, c);
            1 <= i <= |cs| - 2 && 1 <= i + direction <= |cs| - 2 && cs[i] == c && Move(cs, c, direction) == Swapped(cs, i, i + direction)
  {
    EndsAreRequired(cs);
    hide Layout, Distinct, IndexOf, Swapped, Required;
  }

  /** A move that changes the layout is undone by the move back. */
  lemma {:induction false} MovingBackUndoes(cs: seq<Column>, c: Column, direction: int)
    requires Layout(cs) && (direction == -1 || direction == 1) && Move(cs, c, direction) != cs
    ensures Move(Move(cs, c, direction), c, -direction) == cs
  {
    hide Layout, Move, IndexOf, Swapped;
    var i := IndexOf(cs, c);
    MoveIsASwap(cs, c, direction);
    MoveIsALayout(cs, c, direction);
    MovesOnePlace(Swapped(cs, i, i + direction), i + direction, -direction);
    SwappedTwice(cs, i, i + direction);
  }

  // ----- every order of the middle columns can be reached by moves

  lemma {:induction false} RunTwice(cs: seq<Column>, a: seq<Step>, b: seq<Step>)
    ensures Run(cs, a + b) == Run(Run(cs, a), b)
    decreases |a|
  {
    if a == [] {
      assert a + b == b;
    } else {
      assert (a + b)[1..] == a[1..] + b;
      RunTwice(Next(cs, a[0]), a[1..], b);
    }
  }

  /** The layout with column `i` taken forward to place `k`. */
  function Forward(cs: seq<Column>, i: nat, k: nat): (r: seq<Column>)
    requires k <= i < |cs|
    ensures |r| == |cs|
  {
    cs[..k] + [cs[i]] + cs[k..i] + cs[i + 1..]
  }

  lemma ForwardAgain(cs: seq<Column>, i: nat, k: nat)
    requires k < i < |cs|
    ensures Forward(Swapped(cs, i, i - 1), i - 1, k) == Forward(cs, i, k)
  {
  }

  lemma {:induction false} MoveForward(cs: seq<Column>, i: nat, k: nat) returns (steps: seq<Step>)
    requires Layout(cs) && 1 <= k <= i <= |cs| - 2
    ensures Run(cs, steps) == Forward(cs, i, k) && forall j | 0 <= j < |steps| :: steps[j].Left?
    decreases i
  {
    hide Layout, Move, Swapped;
    if i == k {
      steps := [];
      assert Forward(cs, i, k) == cs;
    } else {
      var c := cs[i];
      MovesOnePlace(cs, i, -1);
      MoveIsALayout(cs, c, -1);
      ForwardAgain(cs, i, k);
      hide Forward;
      var rest := MoveForward(Move(cs, c, -1), i - 1, k);
      steps := [Left(c)] + rest;
      assert steps[1..] == rest;
    }
  }

  predicate SameColumns(a: seq<Column>, b: seq<Column>) {
    |a| == |b| && forall i | 0 <= i < |b| :: b[i] in a
  }

  lemma ForwardAgrees(cs: seq<Column>, target: seq<Column>, i: nat, k: nat)
    requires k <= i < |cs| && k < |target| && cs[i] == target[k] && cs[..k] == target[..k]
    ensures Forward(cs, i, k)[..k + 1] == target[..k + 1]
  {
    assert target[..k + 1] == target[..k] + [target[k]];
  }

  /** From an agreement on the first `k` places, moves to the left reach the target. */
  lemma {:induction false} ReachFrom(cs: seq<Column>, target: seq<Column>, k: nat) returns (steps: seq<Step>)
    requires Layout(cs) && Layout(target) && SameColumns(cs, target)
    requires 1 <= k <= |cs| - 1 && cs[..k] == target[..k]
    ensures Run(cs, steps) == target && forall j | 0 <= j < |steps| :: steps[j].Left?
    decreases |cs| - k
  {
    if k == |cs| - 1 {
      SameEnd(cs, target, k);
      steps := [];
    } else {
      var i := IndexOf(cs, target[k]);
      NotBefore(cs, target, k, i);
      hide Layout, Run, Forward, SameColumns, IndexOf;
      var first := MoveForward(cs, i, k);
      var moved := Forward(cs, i, k);
      EveryRun(cs, first);
      ForwardMembers(cs, target, i, k);
      ForwardAgrees(cs, target, i, k);
      var rest := ReachFrom(moved, target, k + 1);
      RunTwice(cs, first, rest);
      steps := first + rest;
    }
  }

  lemma SameEnd(cs: seq<Column>, target: seq<Column>, k: nat)
    requires Layout(cs) && Layout(target) && |cs| == |target| == k + 1 && cs[..k] == target[..k]
    ensures cs == target
  {
    assert cs == cs[..k] + [cs[k]] && target == target[..k] + [target[k]];
  }

  lemma NotBefore(cs: seq<Column>, target: seq<Column>, k: nat, i: int)
    requires Layout(cs) && Layout(target) && SameColumns(cs, target) && 1 <= k < |cs| - 1 && cs[..k] == target[..k]
    requires i == IndexOf(cs, target[k])
    ensures k <= i <= |cs| - 2 && cs[i] == target[k]
  {
    EndsAreRequired(cs);
    EndsAreRequired(target);
    hide Layout, IndexOf, Required;
    assert target[k] in cs;
    if i < k {
      SamePrefix(cs, target, k, i);
    }
  }

  lemma SamePrefix(cs: seq<Column>, target: seq<Column>, k: nat, i: nat)
    requires i < k <= |cs| && k <= |target| && cs[..k] == target[..k]
    ensures cs[i] == target[i]
  {
    assert cs[i] == cs[..k][i] && target[i] == target[..k][i];
  }

  lemma ForwardMembers(cs: seq<Column>, target: seq<Column>, i: nat, k: nat)
    requires k <= i < |cs| && SameColumns(cs, target)
    ensures SameColumns(Forward(cs, i, k), target)
  {
    var moved := Forward(cs, i, k);
    forall j | 0 <= j < |target|
      ensures target[j] in moved
    {
      var at := IndexOf(cs, target[j]);
      assert moved[if at < k then at else if at < i then at + 1 else if at == i then k else at] == target[j];
    }
  }

  /** Any order of the same columns can be reached by moving columns to the left. */
  lemma {:induction false} EveryOrderIsReachable(cs: seq<Column>, target: seq<Column>) returns (steps: seq<Step>)
    requires Layout(cs) && Layout(target) && SameColumns(cs, target)
    ensures Run(cs, steps) == target && forall j | 0 <= j < |steps| :: steps[j].Left?
  {
    assert cs[..1] == [Reference] == target[..1];
    steps := ReachFrom(cs, target, 1);
  }
}
