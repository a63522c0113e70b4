/** Booking amendments: validating an untrusted proposal. */
module Amendment {
  // A JSON number that is not a whole number is `Fraction`; dates of the booking are real days or absent.

  import opened Common
  import opened Text
  import opened Calendar
  import opened Sorting

  datatype Json =
    | Null
    | Bool(b: bool)
    | Whole(n: int)
    | Fraction
    | Str(text: string)
    | List(items: seq<Json>)
    | Object(fields: seq<Field>)

  datatype Field = Field(name: string, value: Json)

  /** The value under a name; `None` is `undefined`. */
  function Lookup(fields: seq<Field>, name: string): Option<Json> {
    if fields == [] then None
    else if fields[0].name == name then Some(fields[0].value)
    else Lookup(fields[1..], name)
  }

  const MAX_NIGHTS := 60
  const MAX_ADULTS := 9
  const MAX_CHILDREN := 6
  const MAX_CHILD_AGE := 17
  const MAX_ROOMS := 8

  datatype Room = Room(position: int, adults: int, children: int, childAges: seq<int>)

  datatype Subject = Subject(checkIn: Option<string>, checkOut: Option<string>, rooms: seq<Room>)

  datatype Proposal = Proposal(checkIn: Option<string>, checkOut: Option<string>, rooms: Option<seq<Room>>)

  datatype Change = StayDates | Occupancy

  datatype Stay = Stay(checkIn: Option<string>, checkOut: Option<string>, nights: Option<int>)

  datatype Problem =
    | NotAnObject
    | UnsupportedField
    | NotADay
    | NoRecordedDates
    | NotAfter
    | TooLong
    | MovedIntoPast
    | BadRoomList
    | RoomNotAnObject
    | NoSuchRoom
    | ListedTwice
    | BadAdults
    | BadChildren
    | BadAges
    | NothingWouldChange

  datatype Issue = Issue(field: string, problem: Problem)

  datatype Validation =
    | Ok(proposal: Proposal, stay: Stay, changes: seq<Change>)
    | Rejected(issues: seq<Issue>)

  predicate RealDates(s: Subject) {
    && (s.checkIn.Some? ==> ReadDay(s.checkIn.value).Some?)
    && (s.checkOut.Some? ==> ReadDay(s.checkOut.value).Some?)
  }

  function SameAges(a: seq<int>, b: seq<int>): bool {
    |a| == |b| && Sort(a) == Sort(b)
  }

  /** Rooms in order of position. */
  function InsertRoom(r: Room, rooms: seq<Room>): seq<Room> {
    if rooms == [] || r.position <= rooms[0].position then [r] + rooms else [rooms[0]] + InsertRoom(r, rooms[1..])
  }

  function SortRooms(rooms: seq<Room>): seq<Room> {
    if rooms == [] then [] else InsertRoom(rooms[0], SortRooms(rooms[1..]))
  }

  function FindRoom(rooms: seq<Room>, position: int): Option<Room> {
    if rooms == [] then None
    else if rooms[0].position == position then Some(rooms[0])
    else FindRoom(rooms[1..], position)
  }

  // ----- what is demanded of a proposal

  function DayIn(value: Option<Json>): Option<string> {
    if value.Some? && value.value.Str? && ReadDay(value.value.text).Some? then Some(value.value.text) else None
  }

  function OrElse<T>(a: Option<T>, b: Option<T>): Option<T> {
    if a.Some? then a else b
  }

  predicate Moved(proposed: Option<string>, current: Option<string>) {
    proposed.Some? && proposed != current
  }

  /** The stay after the proposed days replace the recorded ones is 1 to 60 nights, and no check-in moves into the past. */
  predicate DatesGood(newIn: Option<string>, newOut: Option<string>, current: Subject, today: string)
    requires RealDates(current)
    requires newIn.Some? ==> ReadDay(newIn.value).Some?
    requires newOut.Some? ==> ReadDay(newOut.value).Some?
  {
    newIn.Some? || newOut.Some? ==>
      && OrElse(newIn, current.checkIn).Some? && OrElse(newOut, current.checkOut).Some?
      && 1 <= NightsBetween(OrElse(newIn, current.checkIn).value, OrElse(newOut, current.checkOut).value) <= MAX_NIGHTS
      && (Moved(newIn, current.checkIn) ==> !Less(newIn.value, today))
  }

  function DefaultTo(value: Option<Json>, default: Json): Json {
    if value.None? || value.value.Null? then default else value.value
  }

  predicate IsAge(j: Json) {
    j.Whole? && 0 <= j.n <= MAX_CHILD_AGE
  }

  predicate AgesGood(ages: Json, children: Json) {
    && ages.List? && children.Whole? && |ages.items| == children.n
    && forall i | 0 <= i < |ages.items| :: IsAge(ages.items[i])
  }

  function Numbers(items: seq<Json>): (r: seq<int>)
    ensures |r| == |items|
  {
    Map((j: Json) => if j.Whole? then j.n else 0, items)
  }

  const ROOM_FIELDS: set<string> := {"position", "adults", "children", "childAges"}
  const FIELDS: set<string> := {"checkIn", "checkOut", "rooms"}

  predicate OnlyFields(fields: seq<Field>, names: set<string>) {
    forall i | 0 <= i < |fields| :: fields[i].name in names
  }

  function PositionOf(entry: Json): Option<int> {
    if entry.Object? then
      match Lookup(entry.fields, "position")
      case Some(Whole(n)) => Some(n)
      case _ => None
    else None
  }

  predicate InRange(value: Option<Json>, low: int, high: int) {
    value.Some? && value.value.Whole? && low <= value.value.n <= high
  }

  /** A room entry that is acceptable by itself. */
  predicate EntryGood(entry: Json, current: Subject) {
    && entry.Object?
    && OnlyFields(entry.fields, ROOM_FIELDS)
    && PositionOf(entry).Some? && FindRoom(current.rooms, PositionOf(entry).value).Some?
    && InRange(Lookup(entry.fields, "adults"), 1, MAX_ADULTS)
    && InRange(Some(DefaultTo(Lookup(entry.fields, "children"), Whole(0))), 0, MAX_CHILDREN)
    && AgesGood(DefaultTo(Lookup(entry.fields, "childAges"), List([])), DefaultTo(Lookup(entry.fields, "children"), Whole(0)))
  }

  /** The room it asks for, with the ages in order. */
  function EntryRoom(entry: Json, current: Subject): (r: Room)
    requires EntryGood(entry, current)
    ensures PositionOf(entry) == Some(r.position)
  {
    Room(PositionOf(entry).value,
         Lookup(entry.fields, "adults").value.n,
         DefaultTo(Lookup(entry.fields, "children"), Whole(0)).n,
         Sort(Numbers(DefaultTo(Lookup(entry.fields, "childAges"), List([])).items)))
  }

  predicate EntriesGood(items: seq<Json>, current: Subject) {
    && (forall i | 0 <= i < |items| :: EntryGood(items[i], current))
    && (forall i, j | 0 <= i < j < |items| :: PositionOf(items[i]) != PositionOf(items[j]))
  }

  function EntryRooms(items: seq<Json>, current: Subject): (r: seq<Room>)
    requires EntriesGood(items, current)
    ensures |r| == |items|
    ensures forall i | 0 <= i < |items| :: r[i] == EntryRoom(items[i], current)
  {
    seq(|items|, i requires 0 <= i < |items| => EntryRoom(items[i], current))
  }

  predicate RoomDiffers(r: Room, current: Subject) {
    var existing := FindRoom(current.rooms, r.position);
    existing.Some? ==>
      existing.value.adults != r.adults || existing.value.children != r.children || !SameAges(existing.value.childAges, r.childAges)
  }

  predicate SomeRoomDiffers(rooms: seq<Room>, current: Subject) {
    exists i :: 0 <= i < |rooms| && RoomDiffers(rooms[i], current)
  }

  predicate RoomsGood(value: Option<Json>, current: Subject) {
    value.Some? ==>
      && value.value.List? && 1 <= |value.value.items| <= MAX_ROOMS
      && EntriesGood(value.value.items, current)
  }

  /** Nothing in the proposal is wrong by itself. */
  predicate Good(raw: Json, current: Subject, today: string)
    requires RealDates(current)
  {
    && raw.Object? && OnlyFields(raw.fields, FIELDS)
    && (Lookup(raw.fields, "checkIn").Some? ==> DayIn(Lookup(raw.fields, "checkIn")).Some?)
    && (Lookup(raw.fields, "checkOut").Some? ==> DayIn(Lookup(raw.fields, "checkOut")).Some?)
    && DatesGood(DayIn(Lookup(raw.fields, "checkIn")), DayIn(Lookup(raw.fields, "checkOut")), current, today)
    && RoomsGood(Lookup(raw.fields, "rooms"), current)
  }

  predicate StayChanges(newIn: Option<string>, newOut: Option<string>, current: Subject) {
    Moved(newIn, current.checkIn) || Moved(newOut, current.checkOut)
  }

  function ProposedRooms(value: Option<Json>, current: Subject): Option<seq<Room>>
    requires RoomsGood(value, current)
  {
    if value.Some? && SomeRoomDiffers(EntryRooms(value.value.items, current), current)
    then Some(SortRooms(EntryRooms(value.value.items, current))) else None
  }

  /** The canonical proposal of a good input: only the parts that change something. */
  function CanonicalProposal(raw: Json, current: Subject, today: string): Proposal
    requires RealDates(current) && Good(raw, current, today)
  {
    var newIn, newOut := DayIn(Lookup(raw.fields, "checkIn")), DayIn(Lookup(raw.fields, "checkOut"));
    var stays := StayChanges(newIn, newOut, current);
    Proposal(if stays then newIn else None, if stays then newOut else None, ProposedRooms(Lookup(raw.fields, "rooms"), current))
  }

  function ChangesOf(p: Proposal): seq<Change> {
    (if p.checkIn.Some? || p.checkOut.Some? then [StayDates] else []) + if p.rooms.Some? then [Occupancy] else []
  }

  function StayOf(p: Proposal, current: Subject): Stay
    requires RealDates(current)
    requires p.checkIn.Some? ==> ReadDay(p.checkIn.value).Some?
    requires p.checkOut.Some? ==> ReadDay(p.checkOut.value).Some?
  {
    var checkIn, checkOut := OrElse(p.checkIn, current.checkIn), OrElse(p.checkOut, current.checkOut);
    Stay(checkIn, checkOut, if checkIn.Some? && checkOut.Some? then Some(NightsBetween(checkIn.value, checkOut.value)) else None)
  }

  const NOTHING: seq<Issue> := [Issue("*", NothingWouldChange)]

  // ----- the validator

  method UnsupportedFields(fields: seq<Field>, names: set<string>, prefix: string) returns (issues: seq<Issue>)
    ensures issues == [] <==> OnlyFields(fields, names)
    ensures forall x | x in issues :: x.problem == UnsupportedField
  {
    issues := [];
    for i := 0 to |fields|
      invariant issues == [] <==> OnlyFields(fields[..i], names)
      invariant forall x | x in issues :: x.problem == UnsupportedField
    {
      assert fields[..i + 1] == fields[..i] + [fields[i]];
      if fields[i].name !in names {
        issues := issues + [Issue(prefix + fields[i].name, UnsupportedField)];
      }
    }
    assert fields[..|fields|] == fields;
  }

  method DateIssues(newIn: Option<string>, newOut: Option<string>, current: Subject, today: string) returns (issues: seq<Issue>)
    requires RealDates(current)
    requires newIn.Some? ==> ReadDay(newIn.value).Some?
    requires newOut.Some? ==> ReadDay(newOut.value).Some?
    ensures issues == [] <==> DatesGood(newIn, newOut, current, today)
    ensures forall x | x in issues :: x.problem != NothingWouldChange
  {
    issues := [];
    var checkIn, checkOut := OrElse(newIn, current.checkIn), OrElse(newOut, current.checkOut);
    if newIn.Some? || newOut.Some? {
      if checkIn.None? || checkOut.None? {
        issues := [Issue("checkIn", NoRecordedDates)];
      } else {
        var nights := NightsBetween(checkIn.value, checkOut.value);
        if nights < 1 {
          issues := [Issue("checkOut", NotAfter)];
        } else if nights > MAX_NIGHTS {
          issues := [Issue("checkOut", TooLong)];
        }
        if Moved(newIn, current.checkIn) && Less(newIn.value, today) {
          issues := issues + [Issue("checkIn", MovedIntoPast)];
        }
      }
    }
  }

  /** One room entry: its problems, and whether the loop goes on to normalise it. */
  method EntryIssues(entry: Json, i: nat, seen: set<int>, current: Subject) returns (issues: seq<Issue>, seen': set<int>)
    ensures issues == [] <==> EntryGood(entry, current) && PositionOf(entry).value !in seen
    ensures EntryGood(entry, current) ==> seen' == seen + {PositionOf(entry).value}
    ensures forall x | x in issues :: x.problem != NothingWouldChange
  {
    var at := "rooms." + NatText(i);
    seen' := seen;
    if !entry.Object? {
      return [Issue(at, RoomNotAnObject)], seen;
    }
    issues := UnsupportedFields(entry.fields, ROOM_FIELDS, at + ".");
    var position := PositionOf(entry);
    if position.None? || FindRoom(current.rooms, position.value).None? {
      return issues + [Issue(at + ".position", NoSuchRoom)], seen;
    }
    if position.value in seen {
      return issues + [Issue(at + ".position", ListedTwice)], seen;
    }
    seen' := seen + {position.value};
    var children := DefaultTo(Lookup(entry.fields, "children"), Whole(0));
    if !InRange(Lookup(entry.fields, "adults"), 1, MAX_ADULTS) {
      issues := issues + [Issue(at + ".adults", BadAdults)];
    }
    if !InRange(Some(children), 0, MAX_CHILDREN) {
      issues := issues + [Issue(at + ".children", BadChildren)];
    }
    if !AgesGood(DefaultTo(Lookup(entry.fields, "childAges"), List([])), children) {
      issues := issues + [Issue(at + ".childAges", BadAges)];
    }
  }

  lemma EntriesGoodStep(items: seq<Json>, i: nat, current: Subject)
    requires i < |items|
    ensures EntriesGood(items[..i + 1], current) <==>
            EntriesGood(items[..i], current) && EntryGood(items[i], current) && forall k | 0 <= k < i :: PositionOf(items[k]) != PositionOf(items[i])
  {
    hide EntryGood, PositionOf;
    var front := items[..i + 1];
    assert forall k | 0 <= k < i :: front[k] == items[..i][k];
    assert front[i] == items[i];
  }

  function Positions(items: seq<Json>): set<int> {
    set k | 0 <= k < |items| && PositionOf(items[k]).Some? :: PositionOf(items[k]).value
  }

  lemma PositionsStep(items: seq<Json>, i: nat)
    requires i < |items| && PositionOf(items[i]).Some?
    ensures Positions(items[..i + 1]) == Positions(items[..i]) + {PositionOf(items[i]).value}
    ensures PositionOf(items[i]).value in Positions(items[..i]) <==> exists k :: 0 <= k < i && PositionOf(items[k]) == PositionOf(items[i])
  {
    hide PositionOf;
    var front := items[..i + 1];
    assert forall k | 0 <= k < i :: front[k] == items[..i][k] == items[k];
    assert front[i] == items[i];
    forall p
      ensures p in Positions(front) <==> p in Positions(items[..i]) || p == PositionOf(items[i]).value
    {
      if p in Positions(items[..i]) {
        var k :| 0 <= k < i && PositionOf(items[..i][k]).Some? && PositionOf(items[..i][k]).value == p;
        assert PositionOf(front[k]).value == p;
      }
      if p == PositionOf(items[i]).value {
        assert PositionOf(front[i]).value == p;
      }
    }
  }

  lemma RoomsSoFar(items: seq<Json>, i: nat, current: Subject)
    requires i < |items| && EntriesGood(items[..i], current) && EntriesGood(items[..i + 1], current)
    requires EntryGood(items[i], current)
    ensures EntryRooms(items[..i + 1], current) == EntryRooms(items[..i], current) + [EntryRoom(items[i], current)]
    ensures SomeRoomDiffers(EntryRooms(items[..i + 1], current), current)
       <==> SomeRoomDiffers(EntryRooms(items[..i], current), current) || RoomDiffers(EntryRoom(items[i], current), current)
  {
    hide EntryGood, RoomDiffers, EntryRoom, EntriesGood;
    var a, r := EntryRooms(items[..i], current), EntryRoom(items[i], current);
    assert EntryRooms(items[..i + 1], current) == a + [r];
    SomeDiffersAppend(a, r, current);
  }

  lemma SomeDiffersAppend(rooms: seq<Room>, r: Room, current: Subject)
    ensures SomeRoomDiffers(rooms + [r], current) <==> SomeRoomDiffers(rooms, current) || RoomDiffers(r, current)
  {
    hide RoomDiffers;
    var all := rooms + [r];
    assert all[|rooms|] == r && forall k | 0 <= k < |rooms| :: all[k] == rooms[k];
  }

  /** The loop over the room entries. */
  method RoomIssues(items: seq<Json>, current: Subject) returns (issues: seq<Issue>, normalized: seq<Room>, differs: bool)
    ensures issues == [] <==> EntriesGood(items, current)
    ensures issues == [] ==> normalized == EntryRooms(items, current)
    ensures issues == [] ==> (differs <==> SomeRoomDiffers(EntryRooms(items, current), current))
    ensures forall x | x in issues :: x.problem != NothingWouldChange
  {
    hide EntryGood, RoomDiffers, EntryRoom, EntriesGood, PositionOf, SomeRoomDiffers, EntryRooms, Positions;
    issues, normalized, differs := [], [], false;
    var seen := {};
    NoEntries(current);
    assert items[..0] == [];
    for i := 0 to |items|
      invariant issues == [] <==> EntriesGood(items[..i], current)
      invariant issues == [] ==> normalized == EntryRooms(items[..i], current) && seen == Positions(items[..i])
      invariant issues == [] ==> (differs <==> SomeRoomDiffers(EntryRooms(items[..i], current), current))
      invariant forall x | x in issues :: x.problem != NothingWouldChange
    {
      EntriesGoodStep(items, i, current);
      var found;
      found, seen := EntryIssues(items[i], i, seen, current);
      if EntryGood(items[i], current) {
        GoodHasPosition(items[i], current);
        PositionsStep(items, i);
      }
      issues := issues + found;
      if issues == [] {
        var next := EntryRoom(items[i], current);
        normalized := normalized + [next];
        RoomsSoFar(items, i, current);
        if RoomDiffers(next, current) {
          differs := true;
        }
      }
    }
    assert items[..|items|] == items;
  }

  lemma GoodHasPosition(entry: Json, current: Subject)
    requires EntryGood(entry, current)
    ensures PositionOf(entry).Some?
  {
  }

  lemma NoEntries(current: Subject)
    ensures EntriesGood([], current) && EntryRooms([], current) == [] && !SomeRoomDiffers([], current) && Positions([]) == {}
  {
  }

  /** The rooms of the input: their problems, and the canonical rooms if some room differs. */
  method RoomsPart(value: Option<Json>, current: Subject) returns (issues: seq<Issue>, rooms: Option<seq<Room>>)
    ensures issues == [] <==> RoomsGood(value, current)
    ensures issues == [] ==> rooms == ProposedRooms(value, current)
    ensures forall x | x in issues :: x.problem != NothingWouldChange
  {
    hide EntriesGood, EntryRooms, SomeRoomDiffers, SortRooms;
    issues, rooms := [], None;
    if value.Some? {
      if !value.value.List? || |value.value.items| == 0 || |value.value.items| > MAX_ROOMS {
        issues := [Issue("rooms", BadRoomList)];
      } else {
        var normalized, differs;
        issues, normalized, differs := RoomIssues(value.value.items, current);
        if differs && issues == [] {
          rooms := Some(SortRooms(normalized));
        }
      }
    }
  }

  /**
   * `validateAmendmentProposal`: accepted, with the canonical proposal, iff the input is good and changes something;
   * a good input that changes nothing is refused with exactly that one issue, and no other input is.
   */
  method ValidateAmendmentProposal(raw: Json, current: Subject, today: string) returns (v: Validation)
    requires RealDates(current)
    ensures v.Ok? <==> Good(raw, current, today) && ChangesOf(CanonicalProposal(raw, current, today)) != []
    ensures v.Ok? ==>
      var p := CanonicalProposal(raw, current, today);
      v == Ok(p, StayOf(p, current), ChangesOf(p))
    ensures v == Rejected(NOTHING) <==> Good(raw, current, today) && ChangesOf(CanonicalProposal(raw, current, today)) == []
    ensures v.Rejected? ==> v.issues != []
  {
    hide DatesGood, RoomsGood, ProposedRooms, ReadDay, OnlyFields, Lookup;
    if !raw.Object? {
      return Rejected([Issue("*", NotAnObject)]);
    }
    var issues := UnsupportedFields(raw.fields, FIELDS, "");
    var inValue, outValue, roomsValue := Lookup(raw.fields, "checkIn"), Lookup(raw.fields, "checkOut"), Lookup(raw.fields, "rooms");
    var newIn, newOut := DayIn(inValue), DayIn(outValue);
    if inValue.Some? && newIn.None? {
      issues := issues + [Issue("checkIn", NotADay)];
    }
    if outValue.Some? && newOut.None? {
      issues := issues + [Issue("checkOut", NotADay)];
    }
    var dateIssues := DateIssues(newIn, newOut, current, today);
    issues := issues + dateIssues;
    var changes: seq<Change> := [];
    var proposal := Proposal(None, None, None);
    if StayChanges(newIn, newOut, current) {
      changes := [StayDates];
      proposal := proposal.(checkIn := newIn, checkOut := newOut);
    }
    var roomIssues, rooms := RoomsPart(roomsValue, current);
    issues := issues + roomIssues;
    if rooms.Some? && issues == [] {
      proposal := proposal.(rooms := rooms);
      changes := changes + [Occupancy];
    }
    assert issues == [] <==> Good(raw, current, today);
    if |issues| > 0 {
      NotNothing(issues);
      return Rejected(issues);
    }
    if changes == [] {
      return Rejected(NOTHING);
    }
    v := Ok(proposal, StayOf(proposal, current), changes);
  }

  lemma NotNothing(issues: seq<Issue>)
    requires forall x | x in issues :: x.problem != NothingWouldChange
    ensures issues != NOTHING
  {
    assert NOTHING[0] in NOTHING;
  }
}
