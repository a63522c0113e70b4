/** Guests per room, from the search form to the checkout roster. */
module Occupancy {
  import opened Common
  import opened Text

  const MAX_ROOMS: nat := 8
  const MAX_OCCUPANTS: nat := 40
  const MAX_ADULTS_PER_ROOM: nat := 8
  const MAX_CHILDREN_PER_ROOM: nat := 6

  /** A room as the form holds it; an age is absent until it is chosen. */
  datatype Draft = Draft(adults: int, childAges: seq<Option<int>>)

  datatype RoomStay = RoomStay(adults: int, ages: seq<int>)

  datatype Reason = BadRooms | BadAdults(room: nat) | TooManyChildren(room: nat) | MissingAge(room: nat) | TooManyGuests

  datatype Result =
    | Ok(rooms: nat, adults: int, children: nat, childAges: seq<int>, roomStays: seq<RoomStay>)
    | Err(reason: Reason)

  predicate ChosenAge(age: Option<int>) {
    age.Some? && 0 <= age.value <= 17
  }

  /** `resolvedChildAges`: the chosen ages, when every child has one. */
  function ResolvedAges(ages: seq<Option<int>>): (r: Option<seq<int>>)
    ensures r.Some? ==> |r.value| == |ages|
  {
    if exists i | 0 <= i < |ages| :: !ChosenAge(ages[i]) then None
    else Some(Map((age: Option<int>) => if age.Some? then age.value else 0, ages))
  }

  function RoomProblem(d: Draft, room: nat): Option<Reason> {
    if d.adults < 1 || d.adults > MAX_ADULTS_PER_ROOM then Some(BadAdults(room))
    else if |d.childAges| > MAX_CHILDREN_PER_ROOM then Some(TooManyChildren(room))
    else if ResolvedAges(d.childAges).None? then Some(MissingAge(room))
    else None
  }

  function Resolved(d: Draft): RoomStay
    requires RoomProblem(d, 0).None?
  {
    RoomStay(d.adults, ResolvedAges(d.childAges).value)
  }

  function SumAdults(stays: seq<RoomStay>): int {
    if stays == [] then 0 else SumAdults(stays[..|stays| - 1]) + stays[|stays| - 1].adults
  }

  function AllAges(stays: seq<RoomStay>): seq<int> {
    if stays == [] then [] else AllAges(stays[..|stays| - 1]) + stays[|stays| - 1].ages
  }

  predicate Uniform(stays: seq<RoomStay>) {
    forall i | 0 <= i < |stays| :: stays[i] == stays[0]
  }

  /** The rooms before the first problem, resolved. */
  predicate ResolvedPrefix(stays: seq<Draft>, roomStays: seq<RoomStay>) {
    && |roomStays| <= |stays|
    && forall i | 0 <= i < |roomStays| :: RoomProblem(stays[i], 0).None? && roomStays[i] == Resolved(stays[i])
  }

  /** What the aggregate of resolved rooms is: the first room's guests when all rooms are alike, sums otherwise. */
  function Aggregate(roomStays: seq<RoomStay>): Result
    requires roomStays != []
  {
    var adults := if Uniform(roomStays) then roomStays[0].adults else SumAdults(roomStays);
    var ages := if Uniform(roomStays) then roomStays[0].ages else AllAges(roomStays);
    if adults > MAX_OCCUPANTS || |ages| > MAX_OCCUPANTS then Err(TooManyGuests)
    else Ok(|roomStays|, adults, |ages|, ages, roomStays)
  }

  predicate RoomsOk(stays: seq<Draft>) {
    && 1 <= |stays| <= MAX_ROOMS
    && forall i | 0 <= i < |stays| :: RoomProblem(stays[i], 0).None?
  }

  function ResolvedAll(stays: seq<Draft>): (r: seq<RoomStay>)
    requires forall i | 0 <= i < |stays| :: RoomProblem(stays[i], 0).None?
    ensures |r| == |stays|
    ensures forall i | 0 <= i < |stays| :: r[i] == Resolved(stays[i])
  {
    if stays == [] then [] else [Resolved(stays[0])] + ResolvedAll(stays[1..])
  }

  /**
   * `buildRoomStays`: accepted exactly when there are 1 to 8 rooms, every room is within its limits with every age chosen,
   * and the aggregate fits; otherwise the first problem in room order is reported.
   */
  method BuildRoomStays(stays: seq<Draft>) returns (r: Result)
    ensures RoomsOk(stays) ==> r == Aggregate(ResolvedAll(stays))
    ensures !RoomsOk(stays) ==>
      if 1 <= |stays| <= MAX_ROOMS then
        exists k :: 0 <= k < |stays| && RoomProblem(stays[k], k + 1).Some? && r == Err(RoomProblem(stays[k], k + 1).value)
                    && forall i | 0 <= i < k :: RoomProblem(stays[i], 0).None?
      else r == Err(BadRooms)
  {
    if |stays| < 1 || |stays| > MAX_ROOMS {
      return Err(BadRooms);
    }
    var roomStays := [];
    for index := 0 to |stays|
      invariant |roomStays| == index && ResolvedPrefix(stays, roomStays)
    {
      var problem := RoomProblem(stays[index], index + 1);
      if problem.Some? {
        assert RoomProblem(stays[index], 0).Some?;
        return Err(problem.value);
      }
      roomStays := roomStays + [Resolved(stays[index])];
    }
    assert roomStays == ResolvedAll(stays);
    r := Aggregate(roomStays);
  }

  /** Only identical occupancies can be priced. */
  predicate Supported(stays: seq<Draft>) {
    forall i | 0 <= i < |stays| :: stays[i].adults == stays[0].adults && stays[i].childAges == stays[0].childAges
  }

  // ----- the roster

  datatype GuestType = Adult | Child

  datatype Guest = Guest(key: string, roomNumber: nat, kind: GuestType, age: Option<int>)

  function AdultKey(room: nat, index: nat): string {
    "r" + NatText(room) + "a" + NatText(index)
  }

  function ChildKey(room: nat, index: nat): string {
    "r" + NatText(room) + "c" + NatText(index)
  }

  function Adults(room: nat, count: nat): (r: seq<Guest>)
    ensures |r| == count
    ensures forall i | 0 <= i < count :: r[i] == Guest(AdultKey(room, i), room, Adult, None)
  {
    if count == 0 then [] else Adults(room, count - 1) + [Guest(AdultKey(room, count - 1), room, Adult, None)]
  }

  function Children(room: nat, ages: seq<int>): (r: seq<Guest>)
    ensures |r| == |ages|
    ensures forall i | 0 <= i < |ages| :: r[i] == Guest(ChildKey(room, i), room, Child, Some(ages[i]))
  {
    if ages == [] then []
    else Children(room, ages[..|ages| - 1]) + [Guest(ChildKey(room, |ages| - 1), room, Child, Some(ages[|ages| - 1]))]
  }

  function RoomGuests(room: nat, adults: nat, ages: seq<int>): (r: seq<Guest>)
    ensures |r| == adults + |ages|
    ensures forall i | 0 <= i < |r| :: r[i].roomNumber == room
  {
    Adults(room, adults) + Children(room, ages)
  }

  function Roster(rooms: nat, adults: nat, ages: seq<int>): seq<Guest> {
    if rooms == 0 then [] else Roster(rooms - 1, adults, ages) + RoomGuests(rooms, adults, ages)
  }

  /** `buildRoster`. */
  method BuildRoster(rooms: nat, adults: nat, childAges: seq<int>) returns (out: seq<Guest>)
    ensures out == Roster(rooms, adults, childAges)
  {
    out := [];
    for room := 1 to rooms + 1
      invariant out == Roster(room - 1, adults, childAges)
    {
      var guests := [];
      for a := 0 to adults
        invariant guests == Adults(room, a)
      {
        guests := guests + [Guest(AdultKey(room, a), room, Adult, None)];
      }
      for c := 0 to |childAges|
        invariant guests == Adults(room, adults) + Children(room, childAges[..c])
      {
        assert childAges[..c + 1][..c] == childAges[..c];
        guests := guests + [Guest(ChildKey(room, c), room, Child, Some(childAges[c]))];
      }
      assert childAges[..|childAges|] == childAges;
      out := out + guests;
    }
  }

  function FirstLead(roster: seq<Guest>): Option<string> {
    if roster == [] then None
    else if roster[0].roomNumber == 1 && roster[0].kind == Adult then Some(roster[0].key)
    else FirstLead(roster[1..])
  }

  predicate IsLead(guest: Guest, roster: seq<Guest>) {
    FirstLead(roster) == Some(guest.key)
  }

  // ----- conservation

  function InRoom(roster: seq<Guest>, room: nat): seq<Guest> {
    Filter((g: Guest) => g.roomNumber == room, roster)
  }

  lemma {:induction false} FilterNone(roster: seq<Guest>, room: nat)
    requires forall g | g in roster :: g.roomNumber != room
    ensures InRoom(roster, room) == []
  {
    if roster != [] {
      FilterNone(roster[1..], room);
    }
  }

  lemma {:induction false} FilterWhole(roster: seq<Guest>, room: nat)
    requires forall g | g in roster :: g.roomNumber == room
    ensures InRoom(roster, room) == roster
  {
    if roster != [] {
      FilterWhole(roster[1..], room);
    }
  }

  lemma {:induction false} RosterRooms(rooms: nat, adults: nat, ages: seq<int>)
    ensures forall g | g in Roster(rooms, adults, ages) :: 1 <= g.roomNumber <= rooms
  {
    hide RoomGuests;
    if rooms != 0 {
      RosterRooms(rooms - 1, adults, ages);
    }
  }

  /** Each room lists exactly its adults, then its children with their ages in order; other rooms have nobody. */
  lemma {:induction false} RoomListsItsGuests(rooms: nat, adults: nat, ages: seq<int>, room: nat)
    ensures InRoom(Roster(rooms, adults, ages), room) == if 1 <= room <= rooms then RoomGuests(room, adults, ages) else []
  {
    hide RoomGuests, InRoom;
    if rooms != 0 {
      var front, mine := Roster(rooms - 1, adults, ages), RoomGuests(rooms, adults, ages);
      RosterRooms(rooms - 1, adults, ages);
      RoomListsItsGuests(rooms - 1, adults, ages, room);
      InRoomAppend(front, mine, room);
      if room == rooms {
        FilterNone(front, room);
        FilterWhole(mine, room);
      } else {
        FilterNone(mine, room);
      }
    } else {
      FilterNone([], room);
    }
  }

  lemma InRoomAppend(front: seq<Guest>, mine: seq<Guest>, room: nat)
    ensures InRoom(front + mine, room) == InRoom(front, room) + InRoom(mine, room)
  {
    FilterAppend((g: Guest) => g.roomNumber == room, front, mine);
  }

  /** A key splits in one way into its room, its kind and its index. */
  lemma {:induction false} KeyParts(room: nat, letter: char, index: nat, room': nat, letter': char, index': nat)
    requires !IsDigit(letter) && !IsDigit(letter')
    requires "r" + NatText(room) + [letter] + NatText(index) == "r" + NatText(room') + [letter'] + NatText(index')
    ensures room == room' && letter == letter' && index == index'
  {
    var s, t := NatText(room), NatText(room');
    var whole := "r" + s + [letter] + NatText(index);
    assert whole == "r" + t + [letter'] + NatText(index');
    assert forall i | 0 <= i < |s| :: whole[i + 1] == s[i];
    assert forall i | 0 <= i < |t| :: whole[i + 1] == t[i];
    assert whole[|s| + 1] == letter && whole[|t| + 1] == letter';
    assert |s| == |t|;
    assert s == t;
    assert NatText(index) == whole[|s| + 2..] == NatText(index');
    NatTextInjective(room, room');
    NatTextInjective(index, index');
  }

  lemma {:induction false} KeysOfRoom(room: nat, adults: nat, ages: seq<int>, i: nat, j: nat)
    requires i < j < adults + |ages|
    ensures RoomGuests(room, adults, ages)[i].key != RoomGuests(room, adults, ages)[j].key
  {
    var guests := RoomGuests(room, adults, ages);
    if guests[i].key == guests[j].key {
      KeyParts(room, if i < adults then 'a' else 'c', if i < adults then i else i - adults,
               room, if j < adults then 'a' else 'c', if j < adults then j else j - adults);
    }
  }

  ghost predicate KeyOfRoom(g: Guest) {
    exists letter: char, index: nat :: !IsDigit(letter) && g.key == "r" + NatText(g.roomNumber) + [letter] + NatText(index)
  }

  lemma {:induction false} RoomKeys(room: nat, adults: nat, ages: seq<int>, i: nat)
    requires i < adults + |ages|
    ensures KeyOfRoom(RoomGuests(room, adults, ages)[i])
  {
    var g := RoomGuests(room, adults, ages)[i];
    if i < adults {
      assert !IsDigit('a') && g.key == "r" + NatText(g.roomNumber) + ['a'] + NatText(i);
    } else {
      assert !IsDigit('c') && g.key == "r" + NatText(g.roomNumber) + ['c'] + NatText(i - adults);
    }
  }

  /** The key of a roster guest tells the room. */
  lemma {:induction false} KeyTellsRoom(rooms: nat, adults: nat, ages: seq<int>, g: Guest)
    requires g in Roster(rooms, adults, ages)
    ensures KeyOfRoom(g)
  {
    hide KeyOfRoom, RoomGuests;
    if g in Roster(rooms - 1, adults, ages) {
      KeyTellsRoom(rooms - 1, adults, ages, g);
    } else {
      var i :| 0 <= i < adults + |ages| && RoomGuests(rooms, adults, ages)[i] == g;
      RoomKeys(rooms, adults, ages, i);
    }
  }

  predicate DistinctKeys(roster: seq<Guest>) {
    forall i, j | 0 <= i < j < |roster| :: roster[i].key != roster[j].key
  }

  lemma {:induction false} RosterKeysDistinct(rooms: nat, adults: nat, ages: seq<int>)
    ensures DistinctKeys(Roster(rooms, adults, ages))
  {
    hide RoomGuests;
    if rooms != 0 {
      var front, mine := Roster(rooms - 1, adults, ages), RoomGuests(rooms, adults, ages);
      RosterKeysDistinct(rooms - 1, adults, ages);
      RosterRooms(rooms - 1, adults, ages);
      forall i, j | 0 <= i < j < |mine|
        ensures mine[i].key != mine[j].key
      {
        KeysOfRoom(rooms, adults, ages, i, j);
      }
      forall g, h | g in front && h in mine
        ensures g.key != h.key
      {
        OtherRoomOtherKey(rooms, adults, ages, g, h);
      }
      assert forall i | 0 <= i < |front| :: front[i] in front;
      assert forall i | 0 <= i < |mine| :: mine[i] in mine;
    }
  }

  lemma {:induction false} OtherRoomOtherKey(rooms: nat, adults: nat, ages: seq<int>, g: Guest, h: Guest)
    requires g in Roster(rooms, adults, ages) && h in Roster(rooms, adults, ages)
    requires g.roomNumber != h.roomNumber
    ensures g.key != h.key
  {
    KeyTellsRoom(rooms, adults, ages, g);
    KeyTellsRoom(rooms, adults, ages, h);
    var l: char, i: nat :| !IsDigit(l) && g.key == "r" + NatText(g.roomNumber) + [l] + NatText(i);
    var m: char, j: nat :| !IsDigit(m) && h.key == "r" + NatText(h.roomNumber) + [m] + NatText(j);
    if g.key == h.key {
      KeyParts(g.roomNumber, l, i, h.roomNumber, m, j);
    }
  }

  /** With at least one room and one adult, exactly one guest is the lead: the first adult of room 1. */
  lemma {:induction false} ExactlyOneLead(rooms: nat, adults: nat, ages: seq<int>, i: nat)
    requires rooms > 0 && adults > 0 && i < |Roster(rooms, adults, ages)|
    ensures IsLead(Roster(rooms, adults, ages)[i], Roster(rooms, adults, ages)) <==> i == 0
  {
    FirstGuest(rooms, adults, ages);
    RosterKeysDistinct(rooms, adults, ages);
  }

  lemma {:induction false} FirstGuest(rooms: nat, adults: nat, ages: seq<int>)
    requires rooms > 0 && adults > 0
    ensures |Roster(rooms, adults, ages)| > 0
    ensures Roster(rooms, adults, ages)[0] == Guest(AdultKey(1, 0), 1, Adult, None)
  {
    if rooms == 1 {
      assert Roster(1, adults, ages) == Roster(0, adults, ages) + RoomGuests(1, adults, ages);
    } else {
      FirstGuest(rooms - 1, adults, ages);
    }
  }

  lemma {:induction false} RosterCount(stays: seq<RoomStay>, adults: nat, ages: seq<int>)
    requires forall i | 0 <= i < |stays| :: stays[i] == RoomStay(adults, ages)
    ensures |Roster(|stays|, adults, ages)| == SumAdults(stays) + |AllAges(stays)|
  {
    hide RoomGuests;
    if stays != [] {
      RosterCount(stays[..|stays| - 1], adults, ages);
    }
  }

  /** Supported rooms resolve to one and the same occupancy. */
  lemma SupportedIsUniform(stays: seq<Draft>)
    requires RoomsOk(stays)
    ensures Supported(stays) ==> Uniform(ResolvedAll(stays))
  {
  }

  /**
   * From search to checkout nobody is lost, added or moved: for accepted and supported rooms the roster built from the
   * search totals lists, room by room, that room's adults and its children's ages, and as many guests as the stays sum to.
   */
  lemma {:induction false} OccupancyIsConserved(stays: seq<Draft>, room: nat)
    requires RoomsOk(stays) && Supported(stays) && room < |stays|
    ensures var stay, ok := Resolved(stays[room]), Aggregate(ResolvedAll(stays));
            && ok.Ok? && ok.rooms == |stays| && ok.adults > 0
            && InRoom(Roster(ok.rooms, ok.adults, ok.childAges), room + 1) == Adults(room + 1, stay.adults) + Children(room + 1, stay.ages)
            && |Roster(ok.rooms, ok.adults, ok.childAges)| == SumAdults(ResolvedAll(stays)) + |AllAges(ResolvedAll(stays))|
  {
    hide InRoom, Adults, Children, Roster, ResolvedAges;
    var all := ResolvedAll(stays);
    SupportedIsUniform(stays);
    assert all[room] == all[0];
    assert RoomProblem(stays[0], 0).None?;
    assert |all[0].ages| == |stays[0].childAges|;
    RoomListsItsGuests(|stays|, all[0].adults, all[0].ages, room + 1);
    RosterCount(all, all[0].adults, all[0].ages);
  }

  // ----- what the search totals say about all rooms

  function TotalAdults(stays: seq<Draft>): int {
    if stays == [] then 0 else TotalAdults(stays[..|stays| - 1]) + stays[|stays| - 1].adults
  }

  /** The ages of all children, room by room. */
  function AllDraftAges(stays: seq<Draft>): seq<Option<int>> {
    if stays == [] then [] else AllDraftAges(stays[..|stays| - 1]) + stays[|stays| - 1].childAges
  }

  function Chosen(ages: seq<int>): seq<Option<int>> {
    Map((age: int) => Some(age), ages)
  }

  lemma {:induction false} ResolvedSums(stays: seq<Draft>)
    requires forall i | 0 <= i < |stays| :: RoomProblem(stays[i], 0).None?
    ensures SumAdults(ResolvedAll(stays)) == TotalAdults(stays) && Chosen(AllAges(ResolvedAll(stays))) == AllDraftAges(stays)
  {
    hide RoomProblem;
    if stays != [] {
      var front, last := stays[..|stays| - 1], stays[|stays| - 1];
      ResolvedSums(front);
      assert ResolvedAll(stays)[..|stays| - 1] == ResolvedAll(front);
      ChosenAges(last);
      MapAppend((age: int) => Some(age), AllAges(ResolvedAll(front)), Resolved(last).ages);
    }
  }

  lemma ChosenAges(d: Draft)
    requires RoomProblem(d, 0).None?
    ensures Resolved(d).adults == d.adults && Chosen(Resolved(d).ages) == d.childAges
    ensures 1 <= d.adults <= MAX_ADULTS_PER_ROOM && |Resolved(d).ages| <= MAX_CHILDREN_PER_ROOM
  {
  }

  lemma {:induction false} UniformSums(stays: seq<RoomStay>, stay: RoomStay)
    requires forall i | 0 <= i < |stays| :: stays[i] == stay
    ensures SumAdults(stays) == |stays| * stay.adults && |AllAges(stays)| == |stays| * |stay.ages|
  {
    if stays != [] {
      UniformSums(stays[..|stays| - 1], stay);
    }
  }

  lemma {:induction false} AdultsCount(stays: seq<RoomStay>)
    requires forall i | 0 <= i < |stays| :: stays[i].adults >= 1
    ensures SumAdults(stays) >= |stays|
  {
    if stays != [] {
      AdultsCount(stays[..|stays| - 1]);
    }
  }

  lemma {:induction false} RosterSize(rooms: nat, adults: nat, ages: seq<int>)
    ensures |Roster(rooms, adults, ages)| == rooms * (adults + |ages|)
  {
    hide RoomGuests;
    if rooms > 0 {
      RosterSize(rooms - 1, adults, ages);
    }
  }

  lemma MoreThanOnce(rooms: nat, guests: nat)
    requires rooms >= 2 && guests >= 1
    ensures rooms * guests > guests
  {
  }

  lemma {:induction false} AlikeTotals(all: seq<RoomStay>)
    requires all != [] && Uniform(all) && 1 <= all[0].adults <= MAX_ADULTS_PER_ROOM && |all[0].ages| <= MAX_CHILDREN_PER_ROOM
    ensures Aggregate(all) == Ok(|all|, all[0].adults, |all[0].ages|, all[0].ages, all)
    ensures SumAdults(all) == |all| * all[0].adults && |AllAges(all)| == |all| * |all[0].ages|
    ensures |Roster(|all|, all[0].adults, all[0].ages)| == SumAdults(all) + |AllAges(all)|
  {
    hide Roster, SumAdults, AllAges;
    UniformSums(all, all[0]);
    RosterSize(|all|, all[0].adults, all[0].ages);
  }

  lemma {:induction false} MixedTotals(all: seq<RoomStay>)
    requires all != [] && !Uniform(all) && SumAdults(all) >= |all|
    ensures Aggregate(all)
         == if SumAdults(all) > MAX_OCCUPANTS || |AllAges(all)| > MAX_OCCUPANTS then Err(TooManyGuests)
            else Ok(|all|, SumAdults(all), |AllAges(all)|, AllAges(all), all)
    ensures |Roster(|all|, SumAdults(all), AllAges(all))| > SumAdults(all) + |AllAges(all)|
  {
    hide Roster, SumAdults, AllAges;
    assert |all| == 1 ==> Uniform(all);
    RosterSize(|all|, SumAdults(all), AllAges(all));
    MoreThanOnce(|all|, SumAdults(all) + |AllAges(all)|);
  }

  /**
   * What the totals of a search say about the guests that were entered. The limit of 40 refuses mixed rooms only. Of rooms that
   * are alike the totals are those of one room, of others the sums over all rooms, with the ages in room order. So the roster
   * that checkout builds from the totals has as many guests as were entered exactly when the rooms are alike.
   */
  lemma {:induction false} TotalsAccountForEveryGuest(stays: seq<Draft>)
    requires RoomsOk(stays)
    ensures var alike, ok, ages := Uniform(ResolvedAll(stays)), Aggregate(ResolvedAll(stays)), AllDraftAges(stays);
            && (ok.Ok? <==> alike || (TotalAdults(stays) <= MAX_OCCUPANTS && |ages| <= MAX_OCCUPANTS))
            && (ok.Ok? ==>
                  && ok.rooms == |stays| && ok.children == |ok.childAges| && ok.adults >= 1
                  && (if alike then TotalAdults(stays) == ok.rooms * ok.adults && |ages| == ok.rooms * ok.children
                      else TotalAdults(stays) == ok.adults && Chosen(ok.childAges) == ages)
                  && (|Roster(ok.rooms, ok.adults, ok.childAges)| == TotalAdults(stays) + |ages| <==> alike))
  {
    var all := ResolvedAll(stays);
    ResolvedSums(stays);
    forall i | 0 <= i < |stays|
      ensures 1 <= all[i].adults <= MAX_ADULTS_PER_ROOM && |all[i].ages| <= MAX_CHILDREN_PER_ROOM
    {
      ChosenAges(stays[i]);
    }
    AdultsCount(all);
    hide RoomProblem, Resolved, ResolvedAll, SumAdults, AllAges, TotalAdults, AllDraftAges, Roster, Chosen, Uniform, Aggregate;
    assert |Chosen(AllAges(all))| == |AllAges(all)| by { ChosenLength(AllAges(all)); }
    if Uniform(all) {
      AlikeTotals(all);
    } else {
      MixedTotals(all);
    }
  }

  lemma ChosenLength(ages: seq<int>)
    ensures |Chosen(ages)| == |ages|
  {
  }
}
