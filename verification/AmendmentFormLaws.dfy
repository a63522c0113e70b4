/** Diff and patch through text: what the dialog sends for a printed target, and what applying it gives. */
module AmendmentFormLaws {
  import opened Common
  import opened Text
  import opened Calendar
  import opened Sorting
  import opened Amendment
  import opened AmendmentLaws
  import opened AmendmentForm

  /** The same head counts, and the same ages in any order. */
  predicate SameRoom(a: Room, b: Room) {
    a.position == b.position && a.adults == b.adults && a.children == b.children && multiset(a.childAges) == multiset(b.childAges)
  }

  predicate SameBooking(a: Subject, b: Subject) {
    && a.checkIn == b.checkIn && a.checkOut == b.checkOut && |a.rooms| == |b.rooms|
    && forall i | 0 <= i < |a.rooms| :: SameRoom(a.rooms[i], b.rooms[i])
  }

  /** Head counts and ages are never negative. */
  predicate Countable(r: Room) {
    r.adults >= 0 && r.children >= 0 && forall i | 0 <= i < |r.childAges| :: r.childAges[i] >= 0
  }

  // ----- the age list

  predicate NumberTexts(texts: seq<string>) {
    forall i | 0 <= i < |texts| :: texts[i] != "" && AllDigits(texts[i])
  }

  lemma {:induction false} TrimAfterSpace(t: string)
    requires AllDigits(t) && t != ""
    ensures Trim([' '] + t) == t && Trim(t) == t
  {
    assert ([' '] + t)[1..] == t;
    DigitsAreTrimmed(t);
  }

  lemma {:induction false} SplitJoined(texts: seq<string>)
    requires texts != [] && NumberTexts(texts)
    ensures var parts := Split(Join(texts, ", "), ',');
            && |parts| == |texts| && parts[0] == texts[0]
            && forall i | 1 <= i < |texts| :: parts[i] == [' '] + texts[i]
  {
    if |texts| == 1 {
      SplitWithout(texts[0], ',');
    } else {
      var rest := texts[1..];
      SplitJoined(rest);
      var joined := Join(rest, ", ");
      assert Join(texts, ", ") == texts[0] + [','] + ([' '] + joined);
      SplitAfter(texts[0], [' '] + joined, ',');
      SplitFirst(' ', joined, ',');
      assert texts == [texts[0]] + rest;
    }
  }

  /** The printed list reads back as the printed numbers. */
  lemma {:induction false} AgePartsOfJoined(texts: seq<string>)
    requires NumberTexts(texts)
    ensures AgeParts(Join(texts, ", ")) == texts
  {
    hide Trim;
    var nonEmpty := (part: string) => part != "";
    if texts == [] {
      TrimNothing();
      assert Split("", ',') == [""];
      assert Map(Trim, [""]) == [""];
    } else {
      SplitJoined(texts);
      var parts := Split(Join(texts, ", "), ',');
      forall i | 0 <= i < |texts|
        ensures Trim(parts[i]) == texts[i]
      {
        TrimAfterSpace(texts[i]);
      }
      assert Map(Trim, parts) == texts;
      FilterAll(nonEmpty, texts);
    }
  }

  lemma {:induction false} DigitsHaveNoSpaces(t: string)
    requires AllDigits(t)
    ensures WithoutSpaces(t) == t
  {
    FilterAll((c: char) => !IsSpace(c), t);
  }

  lemma {:induction false} WithoutSpacesOfJoined(texts: seq<string>)
    requires NumberTexts(texts)
    ensures WithoutSpaces(Join(texts, ", ")) == Join(texts, ",")
  {
    var keep := (c: char) => !IsSpace(c);
    if texts == [] {
    } else if |texts| == 1 {
      DigitsHaveNoSpaces(texts[0]);
    } else {
      var rest := Join(texts[1..], ", ");
      WithoutSpacesOfJoined(texts[1..]);
      DigitsHaveNoSpaces(texts[0]);
      FilterAppend(keep, texts[0] + ", ", rest);
      FilterAppend(keep, texts[0], ", ");
      FilterCons(keep, ',', " ");
      FilterCons(keep, ' ', "");
      assert [','] + " " == ", ";
      assert [' '] + "" == " ";
      assert texts[0] + ", " + rest == Join(texts, ", ");
    }
  }

  lemma {:induction false} JoinInjective(a: seq<string>, b: seq<string>)
    requires NumberTexts(a) && NumberTexts(b) && Join(a, ",") == Join(b, ",")
    ensures a == b
  {
    JoinEmpty(a);
    JoinEmpty(b);
    if a != [] {
      assert [','] == ",";
      SplitJoin(a, ',');
      SplitJoin(b, ',');
    }
  }

  lemma JoinEmpty(a: seq<string>)
    requires NumberTexts(a)
    ensures Join(a, ",") == "" <==> a == []
  {
  }

  lemma {:induction false} TextsInjective(a: seq<int>, b: seq<int>)
    requires (forall i | 0 <= i < |a| :: a[i] >= 0) && (forall i | 0 <= i < |b| :: b[i] >= 0)
    requires Map(IntText, a) == Map(IntText, b)
    ensures a == b
  {
    forall i | 0 <= i < |a|
      ensures a[i] == b[i]
    {
      assert IntText(a[i]) == Map(IntText, a)[i] == Map(IntText, b)[i] == IntText(b[i]);
      NatTextInjective(a[i], b[i]);
    }
  }

  lemma {:induction false} SortedAgesTexts(ages: seq<int>)
    requires forall i | 0 <= i < |ages| :: ages[i] >= 0
    ensures forall i | 0 <= i < |Sort(ages)| :: Sort(ages)[i] >= 0
    ensures NumberTexts(Map(IntText, Sort(ages)))
  {
    forall i | 0 <= i < |Sort(ages)|
      ensures Sort(ages)[i] >= 0
    {
      SortMembers(ages, Sort(ages)[i]);
    }
  }

  /** Two printed age lists agree up to spacing exactly when the ages are the same up to order. */
  lemma {:induction false} SameAgesText(a: seq<int>, b: seq<int>)
    requires (forall i | 0 <= i < |a| :: a[i] >= 0) && (forall i | 0 <= i < |b| :: b[i] >= 0)
    ensures WithoutSpaces(AgesText(a)) == WithoutSpaces(AgesText(b)) <==> multiset(a) == multiset(b)
  {
    hide WithoutSpaces, Join, Sort;
    SortedAgesTexts(a);
    SortedAgesTexts(b);
    WithoutSpacesOfJoined(Map(IntText, Sort(a)));
    WithoutSpacesOfJoined(Map(IntText, Sort(b)));
    SortSame(a, b);
    if Join(Map(IntText, Sort(a)), ",") == Join(Map(IntText, Sort(b)), ",") {
      JoinInjective(Map(IntText, Sort(a)), Map(IntText, Sort(b)));
      TextsInjective(Sort(a), Sort(b));
    }
  }

  // ----- one room

  lemma {:induction false} WholeNumberOfText(n: nat)
    requires n <= 99
    ensures WholeNumber(NatText(n)) == Some(n)
  {
    DigitsAreTrimmed(NatText(n));
    NatTextLength(n, 2);
    assert Scale(1, 2) == 10 * Scale(1, 1) == 100;
    ValueOfNatText(n);
  }

  lemma {:induction false} ReadAges(ages: seq<int>)
    requires forall i | 0 <= i < |ages| :: 0 <= ages[i] <= 99
    ensures var parts := Map(IntText, ages);
            && NumberTexts(parts)
            && (forall i | 0 <= i < |parts| :: WholeNumber(parts[i]).Some?)
            && Map((p: string) => if WholeNumber(p).Some? then WholeNumber(p).value else 0, parts) == ages
  {
    hide WholeNumber;
    forall i | 0 <= i < |ages|
      ensures WholeNumber(IntText(ages[i])) == Some(ages[i])
    {
      WholeNumberOfText(ages[i]);
    }
  }

  lemma {:induction false} FitsSorted(r: Room)
    requires RoomFits(r)
    ensures RoomOk(r.(childAges := Sort(r.childAges))) && Countable(r)
    ensures forall i | 0 <= i < |Sort(r.childAges)| :: 0 <= Sort(r.childAges)[i] <= MAX_CHILD_AGE
  {
    SortContents(r.childAges);
    forall i | 0 <= i < |Sort(r.childAges)|
      ensures 0 <= Sort(r.childAges)[i] <= MAX_CHILD_AGE
    {
      SortMembers(r.childAges, Sort(r.childAges)[i]);
    }
  }

  /** A printed room is skipped exactly when it is the booking's room, and otherwise read back with its ages in order. */
  lemma {:induction false} ReadPrintedRoom(t: Room, c: Room)
    requires t.position == c.position && Countable(t) && Countable(c)
    ensures SameRoom(t, c) ==> ReadRoom(PrintRoom(t), Some(PrintRoom(c))) == Skipped
    ensures !SameRoom(t, c) && RoomFits(t) ==> ReadRoom(PrintRoom(t), Some(PrintRoom(c))) == Read(t.(childAges := Sort(t.childAges)))
  {
    SameAgesText(t.childAges, c.childAges);
    CountsText(t.adults, c.adults);
    CountsText(t.children, c.children);
    hide WithoutSpaces, WholeNumber, AgeParts, Sort, IntText;
    if !SameRoom(t, c) && RoomFits(t) {
      FitsSorted(t);
      CountRead(t.adults);
      CountRead(t.children);
      ReadAges(Sort(t.childAges));
      AgePartsOfJoined(Map(IntText, Sort(t.childAges)));
    }
  }

  lemma CountsText(a: nat, b: nat)
    ensures IntText(a) == IntText(b) <==> a == b
  {
    if IntText(a) == IntText(b) {
      NatTextInjective(a, b);
    }
  }

  lemma CountRead(n: nat)
    requires n <= 99
    ensures WholeNumber(IntText(n)) == Some(n) && IntText(n) != ""
  {
    WholeNumberOfText(n);
  }

  // ----- all rooms

  /** The rooms of the target that differ, with their ages in order. */
  function ChangedRooms(target: seq<Room>, current: seq<Room>): seq<Room>
    requires |target| == |current|
  {
    if target == [] then []
    else
      var n := |target| - 1;
      ChangedRooms(target[..n], current[..n])
      + if SameRoom(target[n], current[n]) then [] else [ChangedRoom(target[n])]
  }

  predicate RoomTarget(t: Room, c: Room) {
    t.position == c.position && Countable(t) && Countable(c) && (SameRoom(t, c) || RoomFits(t))
  }

  predicate RoomTargets(target: seq<Room>, current: seq<Room>) {
    |target| == |current| && forall i | 0 <= i < |target| :: RoomTarget(target[i], current[i])
  }

  function ChangedRoom(t: Room): Room {
    t.(childAges := Sort(t.childAges))
  }

  /** What is read from row `i` of the printed target against the printed booking. */
  lemma {:induction false} ReadRow(target: seq<Room>, current: seq<Room>, i: nat)
    requires RoomTargets(target, current) && i < |target|
    ensures ReadRoom(Map(PrintRoom, target)[i], At(Map(PrintRoom, current), i))
         == if SameRoom(target[i], current[i]) then Skipped else Read(ChangedRoom(target[i]))
  {
    hide ReadRoom, PrintRoom, SameRoom, RoomFits, Countable, Sort;
    assert RoomTarget(target[i], current[i]);
    ReadPrintedRoom(target[i], current[i]);
  }

  lemma {:induction false} EditedArePrintedChanges(target: seq<Room>, current: seq<Room>, n: nat)
    requires RoomTargets(target, current) && n <= |target|
    ensures EditedRooms(Map(PrintRoom, target), Map(PrintRoom, current), n) == ChangedRooms(target[..n], current[..n])
  {
    hide ReadRoom, PrintRoom, SameRoom, RoomTarget, Map, At, ChangedRoom;
    if n != 0 {
      EditedArePrintedChanges(target, current, n - 1);
      var i := n - 1;
      ReadRow(target, current, i);
      assert target[..n][..i] == target[..i] && current[..n][..i] == current[..i];
    }
  }

  lemma {:induction false} NoPrintedRoomIsBad(target: seq<Room>, current: seq<Room>)
    requires RoomTargets(target, current)
    ensures !SomeBadRoom(Map(PrintRoom, target), Map(PrintRoom, current), |target|)
  {
    hide ReadRoom, PrintRoom, SameRoom, RoomTarget, At, Map, ChangedRoom;
    forall i | 0 <= i < |target|
      ensures ReadRoom(Map(PrintRoom, target)[i], At(Map(PrintRoom, current), i)) != Bad
    {
      ReadRow(target, current, i);
    }
  }

  /** The room is what a differing room of the target asks for. */
  predicate Asked(target: seq<Room>, current: seq<Room>, i: int, r: Room)
    requires |target| == |current|
  {
    0 <= i < |target| && !SameRoom(target[i], current[i]) && r == ChangedRoom(target[i])
  }

  lemma {:induction false} ChangedMembers(target: seq<Room>, current: seq<Room>)
    requires |target| == |current|
    ensures |ChangedRooms(target, current)| <= |target|
    ensures forall r :: r in ChangedRooms(target, current) <==> exists i :: Asked(target, current, i, r)
  {
    hide SameRoom, ChangedRoom;
    if target != [] {
      var n := |target| - 1;
      var front, before := target[..n], current[..n];
      ChangedMembers(front, before);
      assert forall i | 0 <= i < n :: front[i] == target[i] && before[i] == current[i];
      forall r
        ensures r in ChangedRooms(target, current) <==> exists i :: Asked(target, current, i, r)
      {
        if r in ChangedRooms(front, before) {
          var i :| Asked(front, before, i, r);
          assert Asked(target, current, i, r);
        } else if r in ChangedRooms(target, current) {
          assert Asked(target, current, n, r);
        }
        if i :| Asked(target, current, i, r) {
          assert i == n || Asked(front, before, i, r);
        }
      }
    }
  }

  /** Distinct rooms of the booking are asked for once each. */
  lemma {:induction false} ChangedDistinct(target: seq<Room>, current: seq<Room>)
    requires RoomTargets(target, current) && DistinctPositions(current)
    ensures DistinctPositions(ChangedRooms(target, current))
  {
    hide SameRoom, RoomFits, Countable, Sort;
    if target != [] {
      var n := |target| - 1;
      var front, before := target[..n], current[..n];
      assert forall i | 0 <= i < n :: front[i] == target[i] && before[i] == current[i];
      ChangedDistinct(front, before);
      ChangedMembers(front, before);
      var changed := ChangedRooms(front, before);
      assert RoomTarget(target[n], current[n]);
      forall k | 0 <= k < |changed|
        ensures changed[k].position != target[n].position
      {
        assert changed[k] in changed;
        var i :| Asked(front, before, i, changed[k]);
        assert RoomTarget(target[i], current[i]);
        assert current[i].position != current[n].position;
      }
    }
  }

  lemma {:induction false} FindAt(rooms: seq<Room>, i: nat)
    requires DistinctPositions(rooms) && i < |rooms|
    ensures FindRoom(rooms, rooms[i].position) == Some(rooms[i])
  {
    FindListed(rooms, rooms[i]);
  }

  lemma {:induction false} FindNone(rooms: seq<Room>, position: int)
    requires forall r | r in rooms :: r.position != position
    ensures FindRoom(rooms, position) == None
  {
    if rooms != [] {
      FindNone(rooms[1..], position);
    }
  }

  /** The changed rooms pass the rules, and each of them differs from the booking's room. */
  lemma {:induction false} ChangedAreSound(target: seq<Room>, current: Subject)
    requires RoomTargets(target, current.rooms) && DistinctPositions(current.rooms)
    requires 1 <= |ChangedRooms(target, current.rooms)| <= MAX_ROOMS
    ensures RoomsSound(ChangedRooms(target, current.rooms), current)
  {
    var changed := ChangedRooms(target, current.rooms);
    hide SameRoom, RoomFits, Countable, Sort, RoomOk, FindRoom, RoomDiffers, ChangedRooms, DistinctPositions;
    ChangedMembers(target, current.rooms);
    ChangedDistinct(target, current.rooms);
    forall k | 0 <= k < |changed|
      ensures RoomOk(changed[k]) && FindRoom(current.rooms, changed[k].position).Some? && RoomDiffers(changed[k], current)
    {
      assert changed[k] in changed;
      var i :| Asked(target, current.rooms, i, changed[k]);
      assert RoomTarget(target[i], current.rooms[i]);
      FindAt(current.rooms, i);
      FitsSorted(target[i]);
      ChangedDiffers(target[i], current, i);
    }
    assert RoomDiffers(changed[0], current);
  }

  lemma ChangedDiffers(t: Room, current: Subject, i: nat)
    requires i < |current.rooms| && FindRoom(current.rooms, t.position) == Some(current.rooms[i])
    requires t.position == current.rooms[i].position && !SameRoom(t, current.rooms[i])
    ensures RoomDiffers(t.(childAges := Sort(t.childAges)), current)
  {
    SortSame(current.rooms[i].childAges, t.childAges);
    SortContents(t.childAges);
    SortSorted(Sort(t.childAges));
  }

  lemma {:induction false} AppliedAt(rooms: seq<Room>, changed: seq<Room>, i: nat)
    requires i < |rooms|
    ensures AppliedRooms(rooms, changed)[i] == if FindRoom(changed, rooms[i].position).Some? then FindRoom(changed, rooms[i].position).value else rooms[i]
  {
    if i > 0 {
      AppliedAt(rooms[1..], changed, i - 1);
    }
  }

  /** Applying the changed rooms, in whatever order, makes every room the target's. */
  lemma {:induction false} AppliedIsTarget(target: seq<Room>, current: seq<Room>, sorted: seq<Room>, i: nat)
    requires RoomTargets(target, current) && DistinctPositions(current) && i < |target|
    requires ByPosition(sorted) && forall r :: r in sorted <==> r in ChangedRooms(target, current)
    ensures SameRoom(AppliedRooms(current, sorted)[i], target[i])
  {
    hide RoomFits, Countable, Sort, ChangedRooms, AppliedRooms, FindRoom, ByPosition;
    ChangedMembers(target, current);
    AppliedAt(current, sorted, i);
    ByPositionIsDistinct(sorted);
    assert RoomTarget(target[i], current[i]);
    if SameRoom(target[i], current[i]) {
      forall r | r in sorted
        ensures r.position != current[i].position
      {
        var j :| Asked(target, current, j, r);
        assert RoomTarget(target[j], current[j]);
        assert i != j;
      }
      FindNone(sorted, current[i].position);
    } else {
      var r := ChangedRoom(target[i]);
      assert Asked(target, current, i, r);
      assert r in ChangedRooms(target, current);
      FindListed(sorted, r);
      SortContents(target[i].childAges);
    }
  }

  // ----- the dates

  function ChangedDay(target: Option<string>, current: Option<string>): Option<string> {
    if target == current then None else target
  }

  predicate DayTarget(target: Option<string>, current: Option<string>) {
    target == current || (target.Some? && ReadDay(target.value).Some?)
  }

  lemma RealDayIsTrimmed(s: string)
    requires ReadDay(s).Some?
    ensures Trim(s) == s && s != ""
  {
    TrimOfTrimmed(s);
    assert s[0..4][0] == s[0] && s[8..10][1] == s[9];
  }

  lemma EditedDayIsTheChange(target: Option<string>, current: Option<string>)
    requires DayTarget(target, current)
    requires current.Some? ==> ReadDay(current.value).Some?
    ensures EditedDay(DateText(target), DateText(current)) == ChangedDay(target, current)
    ensures Moved(ChangedDay(target, current), current) <==> target != current
    ensures OrElse(ChangedDay(target, current), current) == target
  {
    hide ReadDay, Trim;
    TrimNothing();
    if target.Some? {
      RealDayIsTrimmed(target.value);
    }
  }

  // ----- diff and patch

  /** A booking over the same rooms that the amendment rules allow to be reached from the current one: at most eight rooms change. */
  predicate ValidTarget(target: Subject, current: Subject, today: string)
    requires RealDates(current)
  {
    && RoomTargets(target.rooms, current.rooms) && DistinctPositions(current.rooms)
    && |ChangedRooms(target.rooms, current.rooms)| <= MAX_ROOMS
    && DayTarget(target.checkIn, current.checkIn) && DayTarget(target.checkOut, current.checkOut)
    && (target.checkIn != current.checkIn || target.checkOut != current.checkOut ==>
          && target.checkIn.Some? && target.checkOut.Some?
          && 1 <= NightsBetween(target.checkIn.value, target.checkOut.value) <= MAX_NIGHTS
          && (target.checkIn != current.checkIn ==> !Less(target.checkIn.value, today)))
  }

  lemma {:induction false} PartsOfTarget(target: Subject, current: Subject, today: string)
    requires RealDates(current) && ValidTarget(target, current, today)
    ensures !SomeBadRoom(PrintForm(target).rooms, PrintForm(current).rooms, |PrintForm(target).rooms|)
    ensures EditedParts(PrintForm(target), current)
         == Proposal(ChangedDay(target.checkIn, current.checkIn), ChangedDay(target.checkOut, current.checkOut),
                     if ChangedRooms(target.rooms, current.rooms) == [] then None else Some(ChangedRooms(target.rooms, current.rooms)))
  {
    hide ReadDay, ReadRoom, EditedRooms, ChangedRooms, EditedDay, ChangedDay, RoomTarget, SomeBadRoom;
    NoPrintedRoomIsBad(target.rooms, current.rooms);
    EditedArePrintedChanges(target.rooms, current.rooms, |target.rooms|);
    assert target.rooms[..|target.rooms|] == target.rooms && current.rooms[..|target.rooms|] == current.rooms;
    EditedDayIsTheChange(target.checkIn, current.checkIn);
    EditedDayIsTheChange(target.checkOut, current.checkOut);
  }

  lemma {:induction false} NothingChangedIff(target: seq<Room>, current: seq<Room>)
    requires RoomTargets(target, current) && DistinctPositions(current)
    ensures ChangedRooms(target, current) == [] <==> forall i | 0 <= i < |target| :: SameRoom(target[i], current[i])
  {
    hide SameRoom, Sort, Countable, RoomFits, ChangedRooms;
    ChangedMembers(target, current);
    var changed := ChangedRooms(target, current);
    if changed != [] {
      assert changed[0] in changed;
    }
    if i :| 0 <= i < |target| && !SameRoom(target[i], current[i]) {
      assert Asked(target, current, i, ChangedRoom(target[i]));
      assert ChangedRoom(target[i]) in changed;
    }
  }

  predicate DaysSound(newIn: Option<string>, newOut: Option<string>, current: Subject, today: string)
    requires RealDates(current)
  {
    && (newIn.Some? ==> ReadDay(newIn.value).Some?) && (newOut.Some? ==> ReadDay(newOut.value).Some?)
    && DatesGood(newIn, newOut, current, today)
    && (newIn.Some? || newOut.Some? ==> StayChanges(newIn, newOut, current))
  }

  lemma {:induction false} TargetDays(target: Subject, current: Subject, today: string)
    requires RealDates(current) && ValidTarget(target, current, today)
    ensures DaysSound(ChangedDay(target.checkIn, current.checkIn), ChangedDay(target.checkOut, current.checkOut), current, today)
  {
    hide ReadDay, NightsBetween, Less, RoomTargets;
    EditedDayIsTheChange(target.checkIn, current.checkIn);
    EditedDayIsTheChange(target.checkOut, current.checkOut);
  }

  /** The difference that the dialog sends is sound. */
  lemma {:induction false} TargetIsSound(target: Subject, current: Subject, today: string)
    requires RealDates(current) && ValidTarget(target, current, today)
    ensures IsSound(EditedParts(PrintForm(target), current), current, today)
  {
    hide ReadDay, EditedParts, PrintForm, ChangedRooms, RoomsSound, RoomTarget, DatesGood, StayChanges, ChangedDay, SomeBadRoom, NightsBetween, Less;
    PartsOfTarget(target, current, today);
    TargetDays(target, current, today);
    if ChangedRooms(target.rooms, current.rooms) != [] {
      ChangedAreSound(target.rooms, current);
    }
  }

  /**
   * Printing a valid target and building the proposal finds nothing to send exactly when the target is the booking as it is
   * (ages in any order); otherwise the proposal is accepted, and applying it to the booking gives the target.
   */
  lemma {:induction false} DiffThenPatch(target: Subject, current: Subject, today: string)
    requires RealDates(current) && ValidTarget(target, current, today)
    ensures var form := PrintForm(target);
            var parts := EditedParts(form, current);
            && !SomeBadRoom(form.rooms, PrintForm(current).rooms, |form.rooms|)
            && (parts == UNEDITED <==> SameBooking(target, current))
            && Good(ProposalJson(parts), current, today)
            && var p := CanonicalProposal(ProposalJson(parts), current, today);
               (ChangesOf(p) == [] <==> SameBooking(target, current)) && SameBooking(Applied(p, current), target)
  {
    var parts := EditedParts(PrintForm(target), current);
    var changed := ChangedRooms(target.rooms, current.rooms);
    PartsOfTarget(target, current, today);
    TargetIsSound(target, current, today);
    SoundReadsBack(parts, current, today);
    EditedDayIsTheChange(target.checkIn, current.checkIn);
    EditedDayIsTheChange(target.checkOut, current.checkOut);
    hide ReadDay, EditedParts, PrintForm, ChangedRooms, ProposalJson, SortRooms, SameRoom, CanonicalProposal, Good, SomeBadRoom, AppliedRooms, RoomTarget, IsSound;
    NothingChangedIff(target.rooms, current.rooms);
    RoomsAgreeAfter(target, current);
  }

  lemma {:induction false} RoomsAgreeAfter(target: Subject, current: Subject)
    requires RoomTargets(target.rooms, current.rooms) && DistinctPositions(current.rooms)
    ensures var changed := ChangedRooms(target.rooms, current.rooms);
            var after := if changed == [] then current.rooms else AppliedRooms(current.rooms, SortRooms(changed));
            |after| == |target.rooms| && forall i | 0 <= i < |target.rooms| :: SameRoom(after[i], target.rooms[i])
  {
    hide SameRoom, RoomTarget, AppliedRooms, SortRooms, ChangedRooms;
    var changed := ChangedRooms(target.rooms, current.rooms);
    if changed == [] {
      NothingChangedIff(target.rooms, current.rooms);
      forall i | 0 <= i < |target.rooms|
        ensures SameRoom(current.rooms[i], target.rooms[i])
      {
        SameRoomSymmetric(target.rooms[i], current.rooms[i]);
      }
    } else {
      SortRoomsFacts(changed);
      ChangedDistinct(target.rooms, current.rooms);
      forall i | 0 <= i < |target.rooms|
        ensures SameRoom(AppliedRooms(current.rooms, SortRooms(changed))[i], target.rooms[i])
      {
        AppliedIsTarget(target.rooms, current.rooms, SortRooms(changed), i);
      }
    }
  }

  lemma SameRoomSymmetric(a: Room, b: Room)
    requires SameRoom(a, b)
    ensures SameRoom(b, a)
  {
  }
}
