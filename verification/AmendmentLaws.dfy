/** What acceptance means: the accepted proposal is canonical, does not depend on listing order, and cannot be applied twice. */
module AmendmentLaws {
  import opened Common
  import opened Text
  import opened Calendar
  import opened Permutations
  import opened Sorting
  import opened Amendment

  // ----- sorting rooms by position

  predicate ByPosition(rooms: seq<Room>) {
    forall i, j | 0 <= i < j < |rooms| :: rooms[i].position < rooms[j].position
  }

  predicate DistinctPositions(rooms: seq<Room>) {
    forall i, j | 0 <= i < j < |rooms| :: rooms[i].position != rooms[j].position
  }

  lemma {:induction false} InsertRoomFacts(r: Room, rooms: seq<Room>)
    ensures |InsertRoom(r, rooms)| == |rooms| + 1
    ensures forall x :: x in InsertRoom(r, rooms) <==> x == r || x in rooms
    ensures ByPosition(rooms) && (forall x | x in rooms :: x.position != r.position) ==> ByPosition(InsertRoom(r, rooms))
  {
    if rooms != [] && rooms[0].position < r.position {
      InsertRoomFacts(r, rooms[1..]);
      var rest := InsertRoom(r, rooms[1..]);
      assert rooms == [rooms[0]] + rooms[1..];
      assert forall i | 0 <= i < |rest| :: rest[i] in rest;
    } else {
      assert forall x :: x in [r] + rooms <==> x == r || x in rooms;
    }
  }

  lemma {:induction false} SortRoomsFacts(rooms: seq<Room>)
    ensures |SortRooms(rooms)| == |rooms|
    ensures forall x :: x in SortRooms(rooms) <==> x in rooms
    ensures DistinctPositions(rooms) ==> ByPosition(SortRooms(rooms))
  {
    if rooms != [] {
      SortRoomsFacts(rooms[1..]);
      InsertRoomFacts(rooms[0], SortRooms(rooms[1..]));
      assert rooms == [rooms[0]] + rooms[1..];
    }
  }

  /** Lists in strict position order with the same members are the same list. */
  lemma {:induction false} ByPositionUnique(a: seq<Room>, b: seq<Room>)
    requires ByPosition(a) && ByPosition(b) && |a| == |b| && forall x :: x in a <==> x in b
    ensures a == b
  {
    if a != [] {
      assert a[0] in b;
      assert b != [] && b[0] in a;
      HeadIsFirst(a, b[0]);
      HeadIsFirst(b, a[0]);
      assert a[0] == b[0];
      TailMembers(a);
      TailMembers(b);
      ByPositionUnique(a[1..], b[1..]);
      assert a == [a[0]] + a[1..] && b == [b[0]] + b[1..];
    }
  }

  lemma HeadIsFirst(a: seq<Room>, x: Room)
    requires ByPosition(a) && x in a
    ensures a[0].position <= x.position && (a[0].position == x.position ==> a[0] == x)
  {
  }

  lemma TailMembers(a: seq<Room>)
    requires ByPosition(a) && a != []
    ensures ByPosition(a[1..]) && forall x :: x in a[1..] <==> x in a && x != a[0]
  {
  }

  lemma SortRoomsIdempotent(rooms: seq<Room>)
    requires ByPosition(rooms)
    ensures SortRooms(rooms) == rooms
  {
    SortRoomsFacts(rooms);
    ByPositionUnique(SortRooms(rooms), rooms);
  }

  // ----- a proposal as input again

  function RoomJson(r: Room): Json {
    Object([Field("position", Whole(r.position)), Field("adults", Whole(r.adults)), Field("children", Whole(r.children)),
            Field("childAges", List(Map((age: int) => Whole(age), r.childAges)))])
  }

  function RoomsJson(rooms: seq<Room>): seq<Json> {
    Map(RoomJson, rooms)
  }

  function ProposalJson(p: Proposal): Json {
    Object((if p.checkIn.Some? then [Field("checkIn", Str(p.checkIn.value))] else [])
           + (if p.checkOut.Some? then [Field("checkOut", Str(p.checkOut.value))] else [])
           + (if p.rooms.Some? then [Field("rooms", List(RoomsJson(p.rooms.value)))] else []))
  }

  lemma {:induction false} LookupAppend(a: seq<Field>, b: seq<Field>, name: string)
    ensures Lookup(a + b, name) == OrElse(Lookup(a, name), Lookup(b, name))
  {
    if a == [] {
      assert a + b == b;
    } else {
      assert (a + b)[1..] == a[1..] + b;
      LookupAppend(a[1..], b, name);
    }
  }

  lemma LookupOne(f: Field, name: string)
    ensures Lookup([f], name) == if f.name == name then Some(f.value) else None
    ensures Lookup([], name) == None
  {
  }

  lemma ProposalFields(p: Proposal)
    ensures var fields := ProposalJson(p).fields;
            && OnlyFields(fields, FIELDS)
            && Lookup(fields, "checkIn") == (if p.checkIn.Some? then Some(Str(p.checkIn.value)) else None)
            && Lookup(fields, "checkOut") == (if p.checkOut.Some? then Some(Str(p.checkOut.value)) else None)
            && Lookup(fields, "rooms") == (if p.rooms.Some? then Some(List(RoomsJson(p.rooms.value))) else None)
  {
    var a := if p.checkIn.Some? then [Field("checkIn", Str(p.checkIn.value))] else [];
    var b := if p.checkOut.Some? then [Field("checkOut", Str(p.checkOut.value))] else [];
    var c := if p.rooms.Some? then [Field("rooms", List(RoomsJson(p.rooms.value)))] else [];
    hide RoomsJson;
    ThreeParts(a, b, c, "checkIn");
    ThreeParts(a, b, c, "checkOut");
    ThreeParts(a, b, c, "rooms");
  }

  lemma ThreeParts(a: seq<Field>, b: seq<Field>, c: seq<Field>, name: string)
    requires |a| <= 1 && |b| <= 1 && |c| <= 1
    ensures Lookup(a + b + c, name) ==
            if a != [] && a[0].name == name then Some(a[0].value)
            else if b != [] && b[0].name == name then Some(b[0].value)
            else if c != [] && c[0].name == name then Some(c[0].value)
            else None
  {
    LookupAppend(a + b, c, name);
    LookupAppend(a, b, name);
  }

  lemma RoomFields(r: Room)
    ensures var fields := RoomJson(r).fields;
            && OnlyFields(fields, ROOM_FIELDS)
            && Lookup(fields, "position") == Some(Whole(r.position))
            && Lookup(fields, "adults") == Some(Whole(r.adults))
            && Lookup(fields, "children") == Some(Whole(r.children))
            && Lookup(fields, "childAges") == Some(List(Map((age: int) => Whole(age), r.childAges)))
  {
    var a, b, c := Field("position", Whole(r.position)), Field("adults", Whole(r.adults)), Field("children", Whole(r.children));
    var d := Field("childAges", List(Map((age: int) => Whole(age), r.childAges)));
    assert RoomJson(r).fields == [a] + [b] + [c] + [d];
    FourFields(a, b, c, d, "position");
    FourFields(a, b, c, d, "adults");
    FourFields(a, b, c, d, "children");
    FourFields(a, b, c, d, "childAges");
  }

  lemma FourFields(a: Field, b: Field, c: Field, d: Field, name: string)
    ensures Lookup([a] + [b] + [c] + [d], name) ==
            if a.name == name then Some(a.value)
            else if b.name == name then Some(b.value)
            else if c.name == name then Some(c.value)
            else if d.name == name then Some(d.value)
            else None
  {
    ThreeParts([a], [b], [c], name);
    LookupAppend([a] + [b] + [c], [d], name);
    LookupOne(d, name);
  }

  /** The limits a canonical room keeps. */
  predicate RoomOk(r: Room) {
    && 1 <= r.adults <= MAX_ADULTS && 0 <= r.children <= MAX_CHILDREN
    && |r.childAges| == r.children && Sorted(r.childAges)
    && forall i | 0 <= i < |r.childAges| :: 0 <= r.childAges[i] <= MAX_CHILD_AGE
  }

  lemma {:induction false} EntryRoomOk(entry: Json, current: Subject)
    requires EntryGood(entry, current)
    ensures RoomOk(EntryRoom(entry, current)) && FindRoom(current.rooms, EntryRoom(entry, current).position).Some?
  {
    var ages := Numbers(DefaultTo(Lookup(entry.fields, "childAges"), List([])).items);
    SortContents(ages);
    forall i | 0 <= i < |Sort(ages)|
      ensures 0 <= Sort(ages)[i] <= MAX_CHILD_AGE
    {
      SortMembers(ages, Sort(ages)[i]);
    }
  }

  /** The limits of a requested room, its ages in any order. */
  predicate RoomFits(r: Room) {
    && 1 <= r.adults <= MAX_ADULTS && 0 <= r.children <= MAX_CHILDREN && |r.childAges| == r.children
    && forall i | 0 <= i < |r.childAges| :: 0 <= r.childAges[i] <= MAX_CHILD_AGE
  }

  /** A room written as input asks for that room with its ages in order. */
  lemma {:induction false} RoomJsonAsks(r: Room, current: Subject)
    requires RoomFits(r) && FindRoom(current.rooms, r.position).Some?
    ensures EntryGood(RoomJson(r), current) && EntryRoom(RoomJson(r), current) == r.(childAges := Sort(r.childAges))
  {
    hide Lookup, OnlyFields, FindRoom, Sort, RoomJson;
    RoomIsObject(r);
    RoomFields(r);
    var items := Map((age: int) => Whole(age), r.childAges);
    assert Numbers(items) == r.childAges;
  }

  lemma RoomJsonGood(r: Room, current: Subject)
    requires RoomOk(r) && FindRoom(current.rooms, r.position).Some?
    ensures EntryGood(RoomJson(r), current) && EntryRoom(RoomJson(r), current) == r
  {
    hide EntryGood, EntryRoom, FindRoom, Sort;
    RoomJsonAsks(r, current);
    SortSorted(r.childAges);
  }

  lemma RoomIsObject(r: Room)
    ensures RoomJson(r).Object?
  {
  }

  lemma {:induction false} RoomsJsonGood(rooms: seq<Room>, current: Subject)
    requires forall i | 0 <= i < |rooms| :: RoomOk(rooms[i]) && FindRoom(current.rooms, rooms[i].position).Some?
    requires DistinctPositions(rooms)
    ensures EntriesGood(RoomsJson(rooms), current) && EntryRooms(RoomsJson(rooms), current) == rooms
  {
    hide EntryGood, EntryRoom, RoomOk, FindRoom, PositionOf;
    forall i | 0 <= i < |rooms|
      ensures EntryGood(RoomsJson(rooms)[i], current) && EntryRoom(RoomsJson(rooms)[i], current) == rooms[i]
    {
      RoomJsonGood(rooms[i], current);
    }
  }

  /** The rooms of an accepted proposal: in strict position order, within the limits, each one of the booking's. */
  lemma {:induction false} ProposedRoomsOk(items: seq<Json>, current: Subject)
    requires EntriesGood(items, current)
    ensures var rooms := SortRooms(EntryRooms(items, current));
            && ByPosition(rooms) && |rooms| == |items|
            && (forall i | 0 <= i < |rooms| :: RoomOk(rooms[i]) && FindRoom(current.rooms, rooms[i].position).Some?)
            && (SomeRoomDiffers(rooms, current) <==> SomeRoomDiffers(EntryRooms(items, current), current))
  {
    hide EntryGood, RoomOk, FindRoom, RoomDiffers;
    var entries := EntryRooms(items, current);
    SortRoomsFacts(entries);
    assert DistinctPositions(entries);
    var rooms := SortRooms(entries);
    forall i | 0 <= i < |rooms|
      ensures RoomOk(rooms[i]) && FindRoom(current.rooms, rooms[i].position).Some?
    {
      assert rooms[i] in entries;
      var k :| 0 <= k < |entries| && entries[k] == rooms[i];
      EntryRoomOk(items[k], current);
    }
    SameMembersDiffer(rooms, entries, current);
  }

  lemma SameMembersDiffer(a: seq<Room>, b: seq<Room>, current: Subject)
    requires forall x :: x in a <==> x in b
    ensures SomeRoomDiffers(a, current) <==> SomeRoomDiffers(b, current)
  {
    hide RoomDiffers;
    if SomeRoomDiffers(a, current) {
      var i :| 0 <= i < |a| && RoomDiffers(a[i], current);
      assert a[i] in b;
    }
    if SomeRoomDiffers(b, current) {
      var i :| 0 <= i < |b| && RoomDiffers(b[i], current);
      assert b[i] in a;
    }
  }

  lemma ByPositionIsDistinct(rooms: seq<Room>)
    requires ByPosition(rooms)
    ensures DistinctPositions(rooms)
  {
  }

  /** Every part of the proposal passes the rules, and every part it holds changes something. */
  ghost predicate IsSound(p: Proposal, current: Subject, today: string)
    requires RealDates(current)
  {
    && (p.checkIn.Some? ==> ReadDay(p.checkIn.value).Some?)
    && (p.checkOut.Some? ==> ReadDay(p.checkOut.value).Some?)
    && DatesGood(p.checkIn, p.checkOut, current, today)
    && (p.checkIn.Some? || p.checkOut.Some? ==> StayChanges(p.checkIn, p.checkOut, current))
    && (p.rooms.Some? ==> RoomsSound(p.rooms.value, current))
  }

  ghost predicate RoomsSound(rooms: seq<Room>, current: Subject) {
    && 1 <= |rooms| <= MAX_ROOMS && DistinctPositions(rooms)
    && (forall i | 0 <= i < |rooms| :: RoomOk(rooms[i]) && FindRoom(current.rooms, rooms[i].position).Some?)
    && SomeRoomDiffers(rooms, current)
  }

  /** What the input of an accepted proposal promises about the proposal alone. */
  ghost predicate IsCanonical(p: Proposal, current: Subject, today: string)
    requires RealDates(current)
  {
    IsSound(p, current, today) && (p.rooms.Some? ==> ByPosition(p.rooms.value))
  }

  lemma {:induction false} CanonicalIsCanonical(raw: Json, current: Subject, today: string)
    requires RealDates(current) && Good(raw, current, today)
    ensures IsCanonical(CanonicalProposal(raw, current, today), current, today)
  {
    hide RoomOk, FindRoom, SomeRoomDiffers, ByPosition, DistinctPositions, EntriesGood, EntryRooms, SortRooms, Lookup, ReadDay, OnlyFields;
    var value := Lookup(raw.fields, "rooms");
    if value.Some? {
      ProposedRoomsOk(value.value.items, current);
      ByPositionIsDistinct(SortRooms(EntryRooms(value.value.items, current)));
    }
  }

  /** A sound proposal, read as input, is good; its canonical form is itself with the rooms in order. */
  lemma {:induction false} SoundReadsBack(p: Proposal, current: Subject, today: string)
    requires RealDates(current) && IsSound(p, current, today)
    ensures Good(ProposalJson(p), current, today)
    ensures CanonicalProposal(ProposalJson(p), current, today)
         == p.(rooms := if p.rooms.Some? then Some(SortRooms(p.rooms.value)) else None)
  {
    hide RoomOk, FindRoom, SomeRoomDiffers, DistinctPositions, EntriesGood, EntryRooms, SortRooms, Lookup, ReadDay, OnlyFields, ProposalJson, DatesGood;
    ProposalFields(p);
    ProposalIsObject(p);
    if p.rooms.Some? {
      RoomsJsonGood(p.rooms.value, current);
      assert |RoomsJson(p.rooms.value)| == |p.rooms.value|;
    }
  }

  /** A canonical proposal, read as input, is good and is its own canonical form. */
  lemma {:induction false} CanonicalReadsBack(p: Proposal, current: Subject, today: string)
    requires RealDates(current) && IsCanonical(p, current, today)
    ensures Good(ProposalJson(p), current, today) && CanonicalProposal(ProposalJson(p), current, today) == p
  {
    hide Good, CanonicalProposal, SortRooms, IsSound, ByPosition;
    SoundReadsBack(p, current, today);
    if p.rooms.Some? {
      SortRoomsIdempotent(p.rooms.value);
    }
  }

  lemma ProposalIsObject(p: Proposal)
    ensures ProposalJson(p).Object?
  {
  }

  /** Validating an accepted proposal again gives the same proposal and the same changes. */
  lemma RevalidationChangesNothing(raw: Json, current: Subject, today: string)
    requires RealDates(current) && Good(raw, current, today)
    ensures var p := CanonicalProposal(raw, current, today);
            && Good(ProposalJson(p), current, today)
            && CanonicalProposal(ProposalJson(p), current, today) == p
  {
    CanonicalIsCanonical(raw, current, today);
    CanonicalReadsBack(CanonicalProposal(raw, current, today), current, today);
  }

  // ----- listing order does not matter

  /** The same room request, with its fields in any order and the same ages in any order. */
  predicate SameEntry(a: Json, b: Json) {
    && a.Object? && b.Object?
    && OnlyFields(a.fields, ROOM_FIELDS) == OnlyFields(b.fields, ROOM_FIELDS)
    && Lookup(a.fields, "position") == Lookup(b.fields, "position")
    && Lookup(a.fields, "adults") == Lookup(b.fields, "adults")
    && Lookup(a.fields, "children") == Lookup(b.fields, "children")
    && var x, y := DefaultTo(Lookup(a.fields, "childAges"), List([])), DefaultTo(Lookup(b.fields, "childAges"), List([]));
       x.List? && y.List? && multiset(x.items) == multiset(y.items)
  }

  lemma {:induction false} NumbersContents(items: seq<Json>)
    ensures |items| > 0 ==> multiset(Numbers(items)) == multiset{if items[0].Whole? then items[0].n else 0} + multiset(Numbers(items[1..]))
  {
    if items != [] {
      assert Numbers(items) == [if items[0].Whole? then items[0].n else 0] + Numbers(items[1..]);
    }
  }

  lemma {:induction false} NumbersCount(items: seq<Json>, n: int)
    requires forall i | 0 <= i < |items| :: items[i].Whole?
    ensures multiset(Numbers(items))[n] == multiset(items)[Whole(n)]
  {
    if items == [] {
    } else {
      NumbersContents(items);
      NumbersCount(items[1..], n);
      assert items == [items[0]] + items[1..];
      assert multiset(items) == multiset{items[0]} + multiset(items[1..]);
    }
  }

  lemma SameLength(a: seq<Json>, b: seq<Json>)
    requires multiset(a) == multiset(b)
    ensures |a| == |b|
  {
    assert |multiset(a)| == |a| && |multiset(b)| == |b|;
  }

  lemma SameAgesGood(a: seq<Json>, b: seq<Json>)
    requires multiset(a) == multiset(b)
    requires forall i | 0 <= i < |a| :: IsAge(a[i])
    ensures forall i | 0 <= i < |b| :: IsAge(b[i])
  {
    forall i | 0 <= i < |b|
      ensures IsAge(b[i])
    {
      assert b[i] in multiset(b);
      assert b[i] in a;
    }
  }

  lemma {:induction false} SameEntrySameRoom(a: Json, b: Json, current: Subject)
    requires SameEntry(a, b) && EntryGood(a, current)
    ensures EntryGood(b, current) && EntryRoom(b, current) == EntryRoom(a, current)
  {
    hide Lookup, OnlyFields, FindRoom, Sort, Numbers, IsAge;
    var x, y := DefaultTo(Lookup(a.fields, "childAges"), List([])).items, DefaultTo(Lookup(b.fields, "childAges"), List([])).items;
    SameLength(x, y);
    SameAgesGood(x, y);
    SortedNumbers(x, y);
  }

  lemma SortedNumbers(a: seq<Json>, b: seq<Json>)
    requires multiset(a) == multiset(b) && (forall i | 0 <= i < |a| :: IsAge(a[i])) && (forall i | 0 <= i < |b| :: IsAge(b[i]))
    ensures Sort(Numbers(a)) == Sort(Numbers(b))
  {
    forall n
      ensures multiset(Numbers(a))[n] == multiset(Numbers(b))[n]
    {
      NumbersCount(a, n);
      NumbersCount(b, n);
    }
    assert multiset(Numbers(a)) == multiset(Numbers(b));
    SortSame(Numbers(a), Numbers(b));
  }

  ghost predicate ReorderedEntries(items: seq<Json>, others: seq<Json>, order: seq<nat>) {
    && |others| == |items| && Permutation(order, |items|)
    && forall j | 0 <= j < |others| :: SameEntry(items[order[j]], others[j])
  }

  lemma {:induction false} ReorderedRooms(items: seq<Json>, others: seq<Json>, order: seq<nat>, current: Subject)
    requires EntriesGood(items, current) && ReorderedEntries(items, others, order)
    ensures EntriesGood(others, current)
    ensures SortRooms(EntryRooms(others, current)) == SortRooms(EntryRooms(items, current))
    ensures SomeRoomDiffers(EntryRooms(others, current), current) <==> SomeRoomDiffers(EntryRooms(items, current), current)
  {
    hide EntryGood, EntryRoom, SameEntry, SomeRoomDiffers, SortRooms;
    forall j | 0 <= j < |others|
      ensures EntryGood(others[j], current) && EntryRoom(others[j], current) == EntryRoom(items[order[j]], current)
      ensures PositionOf(others[j]) == PositionOf(items[order[j]])
    {
      SameEntrySameRoom(items[order[j]], others[j], current);
    }
    var a, b := EntryRooms(items, current), EntryRooms(others, current);
    forall x
      ensures x in a <==> x in b
    {
      if x in a {
        var k :| 0 <= k < |a| && a[k] == x;
        PermutationCovers(order, |items|, k);
        var j :| 0 <= j < |order| && order[j] == k;
        assert b[j] == x;
      }
      if x in b {
        var j :| 0 <= j < |b| && b[j] == x;
        assert a[order[j]] == x;
      }
    }
    SameMembersDiffer(a, b, current);
    SortRoomsFacts(a);
    SortRoomsFacts(b);
    assert DistinctPositions(a) && DistinctPositions(b);
    ByPositionUnique(SortRooms(a), SortRooms(b));
  }

  /** Inputs that differ in the order of their rooms, of the fields, or of any room's ages are validated alike. */
  lemma {:induction false} ListingOrderDoesNotMatter(raw: Json, other: Json, order: seq<nat>, current: Subject, today: string)
    requires RealDates(current) && Good(raw, current, today)
    requires other.Object? && OnlyFields(other.fields, FIELDS)
    requires Lookup(other.fields, "checkIn") == Lookup(raw.fields, "checkIn")
    requires Lookup(other.fields, "checkOut") == Lookup(raw.fields, "checkOut")
    requires var a, b := Lookup(raw.fields, "rooms"), Lookup(other.fields, "rooms");
             a.Some? && b.Some? && b.value.List? && ReorderedEntries(a.value.items, b.value.items, order)
    ensures Good(other, current, today)
    ensures CanonicalProposal(other, current, today) == CanonicalProposal(raw, current, today)
  {
    hide EntriesGood, EntryRooms, SomeRoomDiffers, SortRooms, Lookup, ReadDay, OnlyFields, DatesGood, SameEntry, Permutation;
    ReorderedRooms(Lookup(raw.fields, "rooms").value.items, Lookup(other.fields, "rooms").value.items, order, current);
  }

  // ----- applying an accepted proposal

  /** The rooms after the proposal replaces the listed ones. */
  function AppliedRooms(rooms: seq<Room>, changed: seq<Room>): (r: seq<Room>)
    ensures |r| == |rooms|
  {
    if rooms == [] then []
    else [if FindRoom(changed, rooms[0].position).Some? then FindRoom(changed, rooms[0].position).value else rooms[0]] + AppliedRooms(rooms[1..], changed)
  }

  /** The booking after an approved proposal (`applyAmendmentDecision`). */
  function Applied(p: Proposal, current: Subject): Subject {
    Subject(OrElse(p.checkIn, current.checkIn), OrElse(p.checkOut, current.checkOut),
            if p.rooms.Some? then AppliedRooms(current.rooms, p.rooms.value) else current.rooms)
  }

  lemma {:induction false} FindHasPosition(rooms: seq<Room>, position: int)
    ensures FindRoom(rooms, position).Some? ==> FindRoom(rooms, position).value.position == position && FindRoom(rooms, position).value in rooms
  {
    if rooms != [] && rooms[0].position != position {
      FindHasPosition(rooms[1..], position);
    }
  }

  lemma {:induction false} FindApplied(rooms: seq<Room>, changed: seq<Room>, position: int)
    ensures FindRoom(AppliedRooms(rooms, changed), position)
         == if FindRoom(rooms, position).None? then None
            else if FindRoom(changed, position).Some? then FindRoom(changed, position) else FindRoom(rooms, position)
  {
    if rooms != [] {
      FindApplied(rooms[1..], changed, position);
      FindHasPosition(changed, rooms[0].position);
    }
  }

  lemma {:induction false} FindListed(rooms: seq<Room>, r: Room)
    requires DistinctPositions(rooms) && r in rooms
    ensures FindRoom(rooms, r.position) == Some(r)
  {
    if rooms[0] != r {
      var k :| 0 <= k < |rooms| && rooms[k] == r;
      assert rooms[0].position != rooms[k].position;
      FindListed(rooms[1..], r);
    }
  }

  /** After it was applied, a room request asks for what the room already is. */
  lemma AppliedRoomAgrees(p: Proposal, current: Subject, r: Room)
    requires p.rooms.Some? && r in p.rooms.value && ByPosition(p.rooms.value)
    requires FindRoom(current.rooms, r.position).Some?
    ensures FindRoom(Applied(p, current).rooms, r.position) == Some(r)
    ensures !RoomDiffers(r, Applied(p, current))
  {
    FindApplied(current.rooms, p.rooms.value, r.position);
    ByPositionIsDistinct(p.rooms.value);
    FindListed(p.rooms.value, r);
  }

  /** The amended stay is real, with the nights the validator reported. */
  lemma AppliedDates(p: Proposal, current: Subject, today: string)
    requires RealDates(current) && IsCanonical(p, current, today)
    ensures RealDates(Applied(p, current))
    ensures StayOf(p, current) == StayOf(Proposal(None, None, None), Applied(p, current))
    ensures p.checkIn.Some? || p.checkOut.Some? ==> StayOf(p, current).nights.Some? && 1 <= StayOf(p, current).nights.value <= MAX_NIGHTS
  {
    hide ReadDay;
  }

  lemma SecondDates(p: Proposal, current: Subject, today: string, later: string)
    requires RealDates(current) && IsCanonical(p, current, today)
    ensures RealDates(Applied(p, current))
    ensures DatesGood(p.checkIn, p.checkOut, Applied(p, current), later)
    ensures !StayChanges(p.checkIn, p.checkOut, Applied(p, current))
  {
    hide ReadDay, Less, NightsBetween;
  }

  /** Validating a proposal against the booking it produced is refused on every later day, and only because nothing would change. */
  lemma {:induction false} SecondApplicationChangesNothing(raw: Json, current: Subject, today: string, later: string)
    requires RealDates(current) && Good(raw, current, today)
    ensures var p := CanonicalProposal(raw, current, today);
            && IsCanonical(p, current, today)
            && RealDates(Applied(p, current))
            && Good(ProposalJson(p), Applied(p, current), later)
            && ChangesOf(CanonicalProposal(ProposalJson(p), Applied(p, current), later)) == []
  {
    var p := CanonicalProposal(raw, current, today);
    var after := Applied(p, current);
    CanonicalIsCanonical(raw, current, today);
    hide CanonicalProposal, Good, RoomOk, FindRoom, ByPosition, EntriesGood, EntryRooms, SortRooms, Lookup, ReadDay, OnlyFields, ProposalJson, DatesGood, Applied, RoomDiffers, StayChanges;
    SecondDates(p, current, today, later);
    ProposalFields(p);
    ProposalIsObject(p);
    if p.rooms.Some? {
      var rooms := p.rooms.value;
      forall i | 0 <= i < |rooms|
        ensures FindRoom(after.rooms, rooms[i].position).Some? && !RoomDiffers(rooms[i], after)
      {
        AppliedRoomAgrees(p, current, rooms[i]);
      }
      ByPositionIsDistinct(rooms);
      RoomsJsonGood(rooms, after);
    }
    SecondReading(p, after, later);
  }

  /** A proposal whose parts all agree with a booking is good for it and changes nothing. */
  lemma {:induction false} SecondReading(p: Proposal, after: Subject, today: string)
    requires RealDates(after)
    requires p.checkIn.Some? ==> ReadDay(p.checkIn.value).Some?
    requires p.checkOut.Some? ==> ReadDay(p.checkOut.value).Some?
    requires DatesGood(p.checkIn, p.checkOut, after, today) && !StayChanges(p.checkIn, p.checkOut, after)
    requires p.rooms.Some? ==>
      && 1 <= |p.rooms.value| <= MAX_ROOMS
      && EntriesGood(RoomsJson(p.rooms.value), after) && EntryRooms(RoomsJson(p.rooms.value), after) == p.rooms.value
      && !SomeRoomDiffers(p.rooms.value, after)
    ensures Good(ProposalJson(p), after, today)
    ensures ChangesOf(CanonicalProposal(ProposalJson(p), after, today)) == []
  {
    hide EntriesGood, EntryRooms, SortRooms, Lookup, ReadDay, OnlyFields, ProposalJson, DatesGood, StayChanges, SomeRoomDiffers;
    ProposalFields(p);
    ProposalIsObject(p);
    if p.rooms.Some? {
      assert |RoomsJson(p.rooms.value)| == |p.rooms.value|;
    }
  }

  /** An accepted proposal leaves rooms it does not list, and their order, alone. */
  lemma {:induction false} OtherRoomsAreKept(p: Proposal, current: Subject, position: int)
    requires p.rooms.Some? ==> FindRoom(p.rooms.value, position).None?
    ensures FindRoom(Applied(p, current).rooms, position) == FindRoom(current.rooms, position)
  {
    if p.rooms.Some? {
      FindApplied(current.rooms, p.rooms.value, position);
    }
  }
}
